/** The table-prefix rewrite (dbwrapper.go:142, applied at :26, :66, :73).

    The rule is a Go strings.Replacer with the one pattern `#__`. A replacer
    with a single multi-byte pattern searches for the leftmost occurrence,
    copies the text before it, writes the prefix and resumes the search just
    after the occurrence: matches never overlap and the inserted prefix is
    never searched again. */
module TablePrefix {

  /** The placeholder SQL text uses for the table prefix. */
  const Token: string := "#__"

  /** An occurrence of the placeholder starts at position `i` of `s`. */
  predicate TokenAt(s: string, i: nat) {
    i + 3 <= |s| && s[i] == '#' && s[i + 1] == '_' && s[i + 2] == '_'
  }

  predicate HasToken(s: string) {
    exists i: nat :: i < |s| && TokenAt(s, i)
  }

  /** Replaces every leftmost, non-overlapping `#__` of `s` by `prefix`. */
  function Rewrite(s: string, prefix: string): (r: string)
    ensures !HasToken(s) ==> r == s
    decreases |s|
  {
    if s == [] then []
    else if TokenAt(s, 0) then
      assert forall i: nat :: TokenAt(s[3..], i) ==> TokenAt(s, i + 3);
      prefix + Rewrite(s[3..], prefix)
    else
      assert forall i: nat :: TokenAt(s[1..], i) ==> TokenAt(s, i + 1);
      assert s == [s[0]] + s[1..];
      [s[0]] + Rewrite(s[1..], prefix)
  }

  /** `pieces` joined with `sep` between neighbours. */
  function Join(pieces: seq<string>, sep: string): string
    requires |pieces| >= 1
  {
    if |pieces| == 1 then pieces[0]
    else pieces[0] + sep + Join(pieces[1..], sep)
  }

  /** The text of `s` cut at each leftmost, non-overlapping placeholder. */
  function Split(s: string): (pieces: seq<string>)
    ensures |pieces| >= 1
    ensures Join(pieces, Token) == s
    ensures forall k :: 0 <= k < |pieces| ==> !HasToken(pieces[k])
    decreases |s|
  {
    if s == [] then [[]]
    else if TokenAt(s, 0) then
      assert s == Token + s[3..];
      [[]] + Split(s[3..])
    else
      var rest := Split(s[1..]);
      var first := [s[0]] + rest[0];
      FirstPieceHasNoToken(s, rest);
      ConsFirstPiece(s[0], rest, Token);
      assert s == [s[0]] + s[1..];
      [first] + rest[1..]
  }

  /** A join starts with its first piece. */
  lemma JoinStartsWithFirst(pieces: seq<string>, sep: string)
    requires |pieces| >= 1
    ensures |Join(pieces, sep)| >= |pieces[0]|
    ensures forall k :: 0 <= k < |pieces[0]| ==> Join(pieces, sep)[k] == pieces[0][k]
  {
  }

  lemma FirstPieceHasNoToken(s: string, rest: seq<string>)
    requires s != [] && !TokenAt(s, 0)
    requires |rest| >= 1 && Join(rest, Token) == s[1..]
    requires !HasToken(rest[0])
    ensures !HasToken([s[0]] + rest[0])
  {
    var first := [s[0]] + rest[0];
    JoinStartsWithFirst(rest, Token);
    assert forall k :: 0 <= k < |first| ==> first[k] == s[k];
    forall i: nat | i < |first|
      ensures !TokenAt(first, i)
    {
      if i > 0 {
        assert !TokenAt(rest[0], i - 1);
        assert first[i] == rest[0][i - 1];
      }
    }
  }

  lemma ConsFirstPiece(c: char, rest: seq<string>, sep: string)
    requires |rest| >= 1
    ensures Join([[c] + rest[0]] + rest[1..], sep) == [c] + Join(rest, sep)
  {
    var pieces := [[c] + rest[0]] + rest[1..];
    assert pieces[1..] == rest[1..];
  }

  /** Text before a position where no placeholder starts is copied through. */
  lemma {:induction false} RewriteCopiesPlainLead(a: string, b: string, prefix: string)
    requires forall i: nat :: i < |a| ==> !TokenAt(a + b, i)
    ensures Rewrite(a + b, prefix) == a + Rewrite(b, prefix)
    decreases |a|
  {
    if a == [] {
      assert a + b == b;
    } else {
      var s := a + b;
      assert !TokenAt(s, 0);
      assert s[1..] == a[1..] + b;
      forall i: nat | i < |a[1..]|
        ensures !TokenAt(a[1..] + b, i)
      {
        assert !TokenAt(s, i + 1);
      }
      RewriteCopiesPlainLead(a[1..], b, prefix);
    }
  }

  /** A placeholder cannot straddle the end of a token-free piece and the
      placeholder that follows it: `#__` has no proper prefix that is also a
      suffix. */
  lemma NoStraddle(t: string, x: string)
    requires !HasToken(t)
    ensures forall i: nat :: i < |t| ==> !TokenAt(t + Token + x, i)
  {
    var s := t + Token + x;
    forall i: nat | i < |t|
      ensures !TokenAt(s, i)
    {
      if i + 3 <= |t| {
        assert !TokenAt(t, i);
        assert s[i] == t[i] && s[i + 1] == t[i + 1] && s[i + 2] == t[i + 2];
      } else if i + 2 == |t| {
        assert s[i + 2] == '#';
      } else {
        assert s[i + 1] == '#';
      }
    }
  }

  /** Reference characterisation: whenever `s` is token-free pieces joined by
      the placeholder, the rewrite is the same pieces joined by the prefix.
      Every placeholder is replaced and all other text keeps its order. */
  lemma {:induction false} RewriteJoin(pieces: seq<string>, prefix: string)
    requires |pieces| >= 1
    requires forall k :: 0 <= k < |pieces| ==> !HasToken(pieces[k])
    ensures Rewrite(Join(pieces, Token), prefix) == Join(pieces, prefix)
    decreases |pieces|
  {
    assert !HasToken(pieces[0]);
    if |pieces| > 1 {
      var t := pieces[0];
      var x := Join(pieces[1..], Token);
      NoStraddle(t, x);
      assert t + Token + x == t + (Token + x);
      RewriteCopiesPlainLead(t, Token + x, prefix);
      assert TokenAt(Token + x, 0);
      assert (Token + x)[3..] == x;
      RewriteJoin(pieces[1..], prefix);
    }
  }

  /** The rewrite of any text is its placeholder-free pieces joined by the
      prefix. */
  lemma RewriteIsJoinOfSplit(s: string, prefix: string)
    ensures Rewrite(s, prefix) == Join(Split(s), prefix)
  {
    RewriteJoin(Split(s), prefix);
  }

  /** The first character of a rewrite: the prefix's if a placeholder starts
      the text, the text's own otherwise. */
  lemma RewriteHead(u: string, prefix: string)
    requires |Rewrite(u, prefix)| > 0
    ensures TokenAt(u, 0) && |prefix| > 0 ==> Rewrite(u, prefix)[0] == prefix[0]
    ensures !TokenAt(u, 0) ==> u != [] && Rewrite(u, prefix)[0] == u[0]
  {
  }

  /** With a non-empty prefix that contains no `#` and does not start with
      `_`, the rewritten text contains no placeholder. */
  lemma {:induction false} RewriteLeavesNoToken(s: string, prefix: string)
    requires |prefix| > 0 && prefix[0] != '_'
    requires forall j :: 0 <= j < |prefix| ==> prefix[j] != '#'
    ensures !HasToken(Rewrite(s, prefix))
    decreases |s|
  {
    var r := Rewrite(s, prefix);
    if s == [] {
    } else if TokenAt(s, 0) {
      var r' := Rewrite(s[3..], prefix);
      RewriteLeavesNoToken(s[3..], prefix);
      assert r == prefix + r';
      forall i: nat | i < |r|
        ensures !TokenAt(r, i)
      {
        if i < |prefix| {
          assert r[i] == prefix[i];
        } else {
          assert !TokenAt(r', i - |prefix|);
        }
      }
    } else {
      var u := s[1..];
      var r' := Rewrite(u, prefix);
      RewriteLeavesNoToken(u, prefix);
      assert r == [s[0]] + r';
      forall i: nat | i < |r|
        ensures !TokenAt(r, i)
      {
        if i > 0 {
          assert !TokenAt(r', i - 1);
        } else if |r| >= 3 && r[0] == '#' {
          RewriteHead(u, prefix);
          if TokenAt(u, 0) {
            assert r[1] == prefix[0];
          } else if u[0] == '_' {
            var w := u[1..];
            assert r' == [u[0]] + Rewrite(w, prefix);
            RewriteHead(w, prefix);
            if TokenAt(w, 0) {
              assert r[2] == prefix[0];
            } else {
              assert r[2] == w[0] == s[2];
            }
          }
        }
      }
    }
  }

  /** Under the same condition on the prefix, running the rewrite a second
      time changes nothing. */
  lemma RewriteIdempotent(s: string, prefix: string)
    requires |prefix| > 0 && prefix[0] != '_'
    requires forall j :: 0 <= j < |prefix| ==> prefix[j] != '#'
    ensures Rewrite(Rewrite(s, prefix), prefix) == Rewrite(s, prefix)
  {
    RewriteLeavesNoToken(s, prefix);
  }

  /** A prefix different from the placeholder is not enough for the rewrite
      to be idempotent: with prefix `#` the text `#____` becomes `#__`, which a
      second pass turns into `#`. */
  lemma RewriteNotIdempotentInGeneral()
    ensures Rewrite("#____", "#") == "#__"
    ensures Rewrite(Rewrite("#____", "#"), "#") == "#"
  {
    assert TokenAt("#____", 0);
    assert "#____"[3..] == "__";
    assert !TokenAt("__", 0) && "__"[1..] == "_";
    assert !TokenAt("_", 0) && "_"[1..] == "";
    assert TokenAt("#__", 0) && "#__"[3..] == "";
  }
}
