/** The string-literal escape rule of the wrapper (dbwrapper.go:82-84, 143).

    The rule is a Go strings.Replacer built from three one-character patterns:
    `'` becomes `\'`, `\` becomes `\\` and `"` becomes `\"`. A replacer whose
    patterns are all single bytes looks each input byte up once and never
    rescans what it has written, so the escaper is a per-character map
    followed by a concatenation. A Go string is modelled as a Dafny string
    holding one character per byte; all three patterns are ASCII, so no
    multi-byte UTF-8 sequence is ever touched. */
module Escaping {
  import opened Wrappers

  /** The characters the escape rule rewrites. */
  predicate IsSpecial(c: char) {
    c == '\'' || c == '\\' || c == '"'
  }

  /** The replacement table: one input character to its output text. */
  function EscapeChar(c: char): string {
    if IsSpecial(c) then ['\\', c] else [c]
  }

  /** Number of characters of `s` the rule rewrites. */
  function CountSpecial(s: string): nat {
    if s == [] then 0
    else (if IsSpecial(s[0]) then 1 else 0) + CountSpecial(s[1..])
  }

  /** `EscapeString`: every special character gets a backslash in front of it,
      every other character is copied. */
  function Escape(s: string): (r: string)
    ensures |r| == |s| + CountSpecial(s)
    ensures CountSpecial(r) == 2 * CountSpecial(s)
  {
    if s == [] then [] else EscapeChar(s[0]) + Escape(s[1..])
  }

  lemma {:induction false} CountSpecialAppend(a: string, b: string)
    ensures CountSpecial(a + b) == CountSpecial(a) + CountSpecial(b)
    decreases |a|
  {
    if a == [] {
      assert a + b == b;
    } else {
      assert (a + b)[1..] == a[1..] + b;
      CountSpecialAppend(a[1..], b);
    }
  }

  /** Escaping distributes over concatenation: the rule works one character
      at a time with no look-ahead and no rescanning. */
  lemma {:induction false} EscapeAppend(a: string, b: string)
    ensures Escape(a + b) == Escape(a) + Escape(b)
    decreases |a|
  {
    if a == [] {
      assert a + b == b;
    } else {
      assert (a + b)[0] == a[0];
      assert (a + b)[1..] == a[1..] + b;
      EscapeAppend(a[1..], b);
    }
  }

  /** Escaping one more character appends its replacement. */
  lemma EscapeSnoc(a: string, c: char)
    ensures Escape(a + [c]) == Escape(a) + EscapeChar(c)
  {
    EscapeAppend(a, [c]);
    assert Escape([c]) == EscapeChar(c) + Escape([]);
  }

  /** The output is the concatenation of the per-character replacements, in
      input order. */
  lemma {:induction false} EscapeIsCharwise(s: string, i: nat)
    requires i <= |s|
    ensures Escape(s) == Escape(s[..i]) + Escape(s[i..])
    ensures i < |s| ==> Escape(s[..i+1]) == Escape(s[..i]) + EscapeChar(s[i])
  {
    assert s == s[..i] + s[i..];
    EscapeAppend(s[..i], s[i..]);
    if i < |s| {
      assert s[..i+1] == s[..i] + [s[i]];
      EscapeSnoc(s[..i], s[i]);
    }
  }

  lemma {:induction false} CountSpecialZero(s: string)
    ensures CountSpecial(s) == 0 <==> forall i :: 0 <= i < |s| ==> !IsSpecial(s[i])
    decreases |s|
  {
    if s != [] {
      CountSpecialZero(s[1..]);
      assert forall i :: 1 <= i < |s| ==> s[i] == s[1..][i - 1];
    }
  }

  /** A string with no quote and no backslash is escaped to itself, and only
      such strings are. */
  lemma EscapeIdentity(s: string)
    ensures Escape(s) == s <==> forall i :: 0 <= i < |s| ==> !IsSpecial(s[i])
  {
    CountSpecialZero(s);
    if forall i :: 0 <= i < |s| ==> !IsSpecial(s[i]) {
      EscapeKeepsPlain(s);
    }
  }

  lemma {:induction false} EscapeKeepsPlain(s: string)
    requires forall i :: 0 <= i < |s| ==> !IsSpecial(s[i])
    ensures Escape(s) == s
    decreases |s|
  {
    if s != [] {
      assert !IsSpecial(s[0]);
      assert forall i :: 0 <= i < |s[1..]| ==> s[1..][i] == s[i + 1];
      EscapeKeepsPlain(s[1..]);
      assert s == [s[0]] + s[1..];
    }
  }

  /** Drops each backslash and keeps the character after it. */
  function Unescape(t: string): (s: string)
    ensures |s| <= |t|
  {
    if t == [] then []
    else if t[0] == '\\' && |t| >= 2 then [t[1]] + Unescape(t[2..])
    else [t[0]] + Unescape(t[1..])
  }

  /** Dropping the inserted backslashes recovers the input. */
  lemma {:induction false} UnescapeEscape(s: string)
    ensures Unescape(Escape(s)) == s
    decreases |s|
  {
    if s != [] {
      var t := Escape(s);
      var rest := Escape(s[1..]);
      assert t == EscapeChar(s[0]) + rest;
      UnescapeEscape(s[1..]);
      if IsSpecial(s[0]) {
        assert t[0] == '\\' && t[1] == s[0] && t[2..] == rest;
      } else {
        assert t[0] == s[0] && t[1..] == rest;
      }
      assert s == [s[0]] + s[1..];
    }
  }

  /** Escaping never maps two different strings to the same output. */
  lemma EscapeInjective(a: string, b: string)
    ensures Escape(a) == Escape(b) ==> a == b
  {
    UnescapeEscape(a);
    UnescapeEscape(b);
  }

  /** The strings the escaper can produce: every backslash begins a pair whose
      second character is special, and no quote stands alone. */
  predicate WellEscaped(t: string) {
    if t == [] then true
    else if t[0] == '\\' then |t| >= 2 && IsSpecial(t[1]) && WellEscaped(t[2..])
    else !IsSpecial(t[0]) && WellEscaped(t[1..])
  }

  lemma {:induction false} EscapeIsWellEscaped(s: string)
    ensures WellEscaped(Escape(s))
    decreases |s|
  {
    if s != [] {
      var t := Escape(s);
      EscapeIsWellEscaped(s[1..]);
      if IsSpecial(s[0]) {
        assert t[0] == '\\' && t[1] == s[0] && t[2..] == Escape(s[1..]);
      } else {
        assert t[0] == s[0] && t[1..] == Escape(s[1..]);
      }
    }
  }

  lemma {:induction false} EscapeUnescapeWellEscaped(t: string)
    requires WellEscaped(t)
    ensures Escape(Unescape(t)) == t
    decreases |t|
  {
    if t != [] {
      if t[0] == '\\' {
        EscapeUnescapeWellEscaped(t[2..]);
        var u := Unescape(t);
        assert u == [t[1]] + Unescape(t[2..]);
        assert u[0] == t[1] && u[1..] == Unescape(t[2..]);
        assert Escape(u) == ['\\', t[1]] + t[2..];
        assert t == ['\\', t[1]] + t[2..];
      } else {
        EscapeUnescapeWellEscaped(t[1..]);
        var u := Unescape(t);
        assert u[0] == t[0] && u[1..] == Unescape(t[1..]);
        assert t == [t[0]] + t[1..];
      }
    }
  }

  /** The escaper's image is exactly the well-escaped strings: it is a
      bijection between all strings and those. */
  lemma EscapeImage(t: string)
    ensures WellEscaped(t) <==> exists s :: Escape(s) == t
  {
    if WellEscaped(t) {
      EscapeUnescapeWellEscaped(t);
    }
    if exists s :: Escape(s) == t {
      var s :| Escape(s) == t;
      EscapeIsWellEscaped(s);
    }
  }

  /** How a backslash-escaping SQL lexer reads the body of a literal opened by
      quote `q`: a backslash takes the next character literally, a doubled
      quote stands for one quote, and the first lone quote ends the literal.
      Returns the literal's value and the text after the closing quote, or
      None when the literal is never closed. */
  function ReadQuoted(q: char, t: string): Option<(string, string)>
    decreases |t|
  {
    if t == [] then None
    else if t[0] == '\\' then
      if |t| < 2 then None
      else match ReadQuoted(q, t[2..])
        case None => None
        case Some((body, rest)) => Some(([t[1]] + body, rest))
    else if t[0] == q then
      if |t| >= 2 && t[1] == q then
        match ReadQuoted(q, t[2..])
        case None => None
        case Some((body, rest)) => Some(([q] + body, rest))
      else Some(([], t[1..]))
    else
      match ReadQuoted(q, t[1..])
      case None => None
      case Some((body, rest)) => Some(([t[0]] + body, rest))
  }

  /** A backslash pair contributes its second character to the value. */
  lemma ReadEscapedPair(q: char, c: char, u: string, body: string, rest: string)
    requires ReadQuoted(q, u) == Some((body, rest))
    ensures ReadQuoted(q, ['\\', c] + u) == Some(([c] + body, rest))
  {
    assert (['\\', c] + u)[2..] == u;
  }

  /** A character that is neither a backslash nor the quote is copied. */
  lemma ReadPlain(q: char, c: char, u: string, body: string, rest: string)
    requires c != '\\' && c != q
    requires ReadQuoted(q, u) == Some((body, rest))
    ensures ReadQuoted(q, [c] + u) == Some(([c] + body, rest))
  {
    assert ([c] + u)[1..] == u;
  }

  /** A lone quote closes the literal. */
  lemma ReadClose(q: char, rest: string)
    requires q != '\\'
    requires rest == [] || rest[0] != q
    ensures ReadQuoted(q, [q] + rest) == Some(([], rest))
  {
    assert ([q] + rest)[1..] == rest;
  }

  /** The first character's replacement comes first. */
  lemma EscapeCons(s: string)
    requires s != []
    ensures Escape(s) == EscapeChar(s[0]) + Escape(s[1..])
  {
  }

  /** One escaped character in front of a literal that reads back as the
      rest of the string reads back as the whole string. */
  lemma QuotedStep(q: char, s: string, rest: string)
    requires q == '\'' || q == '"'
    requires s != []
    requires ReadQuoted(q, Escape(s[1..]) + [q] + rest) == Some((s[1..], rest))
    ensures ReadQuoted(q, Escape(s) + [q] + rest) == Some((s, rest))
  {
    var head, tail := EscapeChar(s[0]), Escape(s[1..]) + [q] + rest;
    EscapeCons(s);
    assert Escape(s) + [q] + rest == head + tail;
    if IsSpecial(s[0]) {
      ReadEscapedPair(q, s[0], tail, s[1..], rest);
    } else {
      ReadPlain(q, s[0], tail, s[1..], rest);
    }
    assert [s[0]] + s[1..] == s;
  }

  /** Escaped text placed between quotes is read back as exactly the original
      string, and the literal ends at the quote the caller wrote: the value
      cannot close the literal early, whichever quote character delimits it. */
  lemma {:induction false} QuotedRoundTrip(q: char, s: string, rest: string)
    requires q == '\'' || q == '"'
    requires rest == [] || rest[0] != q
    ensures ReadQuoted(q, Escape(s) + [q] + rest) == Some((s, rest))
    decreases |s|
  {
    if s == [] {
      assert Escape(s) + [q] + rest == [q] + rest;
      ReadClose(q, rest);
    } else {
      QuotedRoundTrip(q, s[1..], rest);
      QuotedStep(q, s, rest);
    }
  }
}
