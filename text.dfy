/** The parts of java.lang.String the image adapter relies on:
    equalsIgnoreCase, trim, contains and split around a single character. */
module Text {
  import opened Wrappers

  // ---------------------------------------------------------------------------
  // Case-insensitive comparison (String.equalsIgnoreCase), ASCII letters only
  // ---------------------------------------------------------------------------

  function Upper(c: char): (u: char)
    ensures !('a' <= u <= 'z')
  {
    if 'a' <= c <= 'z' then (c as int - 32) as char else c
  }

  function Lower(c: char): char {
    if 'A' <= c <= 'Z' then (c as int + 32) as char else c
  }

  /** The per-character test String.equalsIgnoreCase applies. */
  predicate CharEqualsIgnoreCase(a: char, b: char) {
    a == b || Upper(a) == Upper(b) || Lower(Upper(a)) == Lower(Upper(b))
  }

  predicate EqualsIgnoreCase(a: string, b: string) {
    |a| == |b| && forall i :: 0 <= i < |a| ==> CharEqualsIgnoreCase(a[i], b[i])
  }

  function UpperAll(s: string): (r: string)
    ensures |r| == |s| && forall i :: 0 <= i < |s| ==> r[i] == Upper(s[i])
  {
    if s == [] then [] else [Upper(s[0])] + UpperAll(s[1..])
  }

  /** Java's three-way character test collapses to comparing upper cases. */
  lemma CharEqualsIgnoreCaseIsUpper(a: char, b: char)
    ensures CharEqualsIgnoreCase(a, b) <==> Upper(a) == Upper(b)
  {
  }

  /** Reference definition: two strings are equal ignoring case exactly when
      their upper-cased forms are equal. */
  lemma EqualsIgnoreCaseIsUpperEquality(a: string, b: string)
    ensures EqualsIgnoreCase(a, b) <==> UpperAll(a) == UpperAll(b)
  {
    if EqualsIgnoreCase(a, b) {
      forall i | 0 <= i < |a| ensures UpperAll(a)[i] == UpperAll(b)[i] {
        CharEqualsIgnoreCaseIsUpper(a[i], b[i]);
      }
    }
    if UpperAll(a) == UpperAll(b) {
      forall i | 0 <= i < |a| ensures CharEqualsIgnoreCase(a[i], b[i]) {
        assert UpperAll(a)[i] == UpperAll(b)[i];
        CharEqualsIgnoreCaseIsUpper(a[i], b[i]);
      }
    }
  }

  /** equalsIgnoreCase is an equivalence relation. */
  lemma EqualsIgnoreCaseEquivalence(a: string, b: string, c: string)
    ensures EqualsIgnoreCase(a, a)
    ensures EqualsIgnoreCase(a, b) ==> EqualsIgnoreCase(b, a)
    ensures EqualsIgnoreCase(a, b) && EqualsIgnoreCase(b, c) ==> EqualsIgnoreCase(a, c)
  {
    EqualsIgnoreCaseIsUpperEquality(a, a);
    EqualsIgnoreCaseIsUpperEquality(a, b);
    EqualsIgnoreCaseIsUpperEquality(b, a);
    EqualsIgnoreCaseIsUpperEquality(b, c);
    EqualsIgnoreCaseIsUpperEquality(a, c);
  }

  // ---------------------------------------------------------------------------
  // String.trim: drop leading and trailing characters at or below U+0020
  // ---------------------------------------------------------------------------

  predicate IsTrimmable(c: char) {
    c <= ' '
  }

  function TrimStart(s: string): (r: string)
    ensures |r| <= |s| && r == s[|s| - |r|..]
    ensures r != [] ==> !IsTrimmable(r[0])
    ensures forall k :: 0 <= k < |s| - |r| ==> IsTrimmable(s[k])
  {
    if s != [] && IsTrimmable(s[0]) then TrimStart(s[1..]) else s
  }

  function TrimEnd(s: string): (r: string)
    ensures |r| <= |s| && r == s[..|r|]
    ensures r != [] ==> !IsTrimmable(r[|r| - 1])
    ensures forall k :: |r| <= k < |s| ==> IsTrimmable(s[k])
  {
    if s != [] && IsTrimmable(s[|s| - 1]) then TrimEnd(s[..|s| - 1]) else s
  }

  /** Java's String.trim: the result is the slice of s that remains once every
      leading and trailing character at or below U+0020 is removed. */
  function Trim(s: string): (r: string)
    ensures r != [] ==> !IsTrimmable(r[0]) && !IsTrimmable(r[|r| - 1])
    ensures exists i :: 0 <= i <= |s| - |r| && TrimmedAt(s, r, i)
  {
    var t := TrimStart(s);
    var r := TrimEnd(t);
    var i := |s| - |t|;
    assert r == s[i..i + |r|];
    assert TrimmedAt(s, r, i);
    r
  }

  /** r is s[i..i + |r|] and everything of s outside that slice is trimmable. */
  ghost predicate TrimmedAt(s: string, r: string, i: nat) {
    i + |r| <= |s| && r == s[i..i + |r|]
    && (forall k :: 0 <= k < i ==> IsTrimmable(s[k]))
    && (forall k :: i + |r| <= k < |s| ==> IsTrimmable(s[k]))
  }

  // ---------------------------------------------------------------------------
  // String.contains
  // ---------------------------------------------------------------------------

  /** sub occurs in s, tried position by position from the front. */
  predicate Contains(s: string, sub: string)
    decreases |s|
  {
    |sub| <= |s| && (s[..|sub|] == sub || Contains(s[1..], sub))
  }

  /** Contains is "sub occurs at some position of s". */
  lemma {:induction false} ContainsOccurs(s: string, sub: string)
    ensures Contains(s, sub) <==> exists i :: 0 <= i <= |s| - |sub| && OccursAt(s, sub, i)
    decreases |s|
  {
    if |sub| <= |s| {
      if s[..|sub|] == sub {
        assert OccursAt(s, sub, 0);
      } else {
        ContainsOccurs(s[1..], sub);
        if Contains(s[1..], sub) {
          var i :| 0 <= i <= |s[1..]| - |sub| && OccursAt(s[1..], sub, i);
          assert s[1..][i..i + |sub|] == s[i + 1..i + 1 + |sub|];
          assert OccursAt(s, sub, i + 1);
        } else {
          forall i | 0 <= i <= |s| - |sub| ensures !OccursAt(s, sub, i) {
            if i > 0 {
              assert s[1..][i - 1..i - 1 + |sub|] == s[i..i + |sub|];
              assert !OccursAt(s[1..], sub, i - 1);
            }
          }
        }
      }
    }
  }

  predicate OccursAt(s: string, sub: string, i: nat) {
    i + |sub| <= |s| && s[i..i + |sub|] == sub
  }

  // ---------------------------------------------------------------------------
  // Splitting around one separator character
  // ---------------------------------------------------------------------------

  /** Every piece between occurrences of sep, empty pieces included:
      one more piece than there are separators. */
  function SplitAll(s: string, sep: char): (r: seq<string>)
    ensures |r| >= 1
  {
    if s == [] then [[]]
    else
      var rest := SplitAll(s[1..], sep);
      if s[0] == sep then [[]] + rest else [[s[0]] + rest[0]] + rest[1..]
  }

  /** The inverse of SplitAll: the pieces glued back with sep between them. */
  function Join(pieces: seq<string>, sep: char): string
    requires |pieces| >= 1
  {
    if |pieces| == 1 then pieces[0] else pieces[0] + [sep] + Join(pieces[1..], sep)
  }

  function Repeat(c: char, k: nat): (r: string)
    ensures |r| == k && forall i :: 0 <= i < k ==> r[i] == c
  {
    if k == 0 then [] else [c] + Repeat(c, k - 1)
  }

  function Empties(k: nat): (r: seq<string>)
    ensures |r| == k && forall i :: 0 <= i < k ==> r[i] == []
  {
    if k == 0 then [] else [[]] + Empties(k - 1)
  }

  function DropTrailingEmpty(pieces: seq<string>): seq<string> {
    if pieces != [] && pieces[|pieces| - 1] == [] then DropTrailingEmpty(pieces[..|pieces| - 1])
    else pieces
  }

  /** Java's String.split with a one-character, non-metacharacter pattern and
      limit 0: a string without the separator comes back whole (even when it
      is empty); otherwise every piece, with the trailing empty pieces dropped. */
  function JavaSplit(s: string, sep: char): seq<string> {
    if sep !in s then [s] else DropTrailingEmpty(SplitAll(s, sep))
  }

  lemma {:induction false} SplitAllPiecesAreFree(s: string, sep: char)
    ensures forall k :: 0 <= k < |SplitAll(s, sep)| ==> sep !in SplitAll(s, sep)[k]
  {
    if s != [] {
      SplitAllPiecesAreFree(s[1..], sep);
    }
  }

  lemma {:induction false} JoinSplitAll(s: string, sep: char)
    ensures Join(SplitAll(s, sep), sep) == s
  {
    if s != [] {
      var rest := SplitAll(s[1..], sep);
      JoinSplitAll(s[1..], sep);
      assert s == [s[0]] + s[1..];
      if s[0] == sep {
        assert SplitAll(s, sep) == [[]] + rest;
        JoinLeadingEmpty(rest, sep);
      } else {
        assert SplitAll(s, sep) == [[s[0]] + rest[0]] + rest[1..];
        JoinGlue(s[0], rest, sep);
      }
    }
  }

  /** A leading empty piece contributes just its separator. */
  lemma JoinLeadingEmpty(pieces: seq<string>, sep: char)
    requires |pieces| >= 1
    ensures Join([[]] + pieces, sep) == [sep] + Join(pieces, sep)
  {
    assert ([[]] + pieces)[1..] == pieces;
  }

  /** Prefixing the first piece with c prefixes the joined text with c. */
  lemma JoinGlue(c: char, pieces: seq<string>, sep: char)
    requires |pieces| >= 1
    ensures Join([[c] + pieces[0]] + pieces[1..], sep) == [c] + Join(pieces, sep)
  {
    var r := [[c] + pieces[0]] + pieces[1..];
    if |pieces| > 1 {
      assert r[1..] == pieces[1..];
    }
  }

  /** A separator-free string is a single piece. */
  lemma {:induction false} SplitAllFree(s: string, sep: char)
    requires sep !in s
    ensures SplitAll(s, sep) == [s]
  {
    if s != [] {
      SplitAllFree(s[1..], sep);
      assert s == [s[0]] + s[1..];
    }
  }

  /** Splitting distributes over a separator: the pieces of a + sep + b are
      those of a followed by those of b. */
  lemma {:induction false} SplitAllAround(a: string, sep: char, b: string)
    ensures SplitAll(a + [sep] + b, sep) == SplitAll(a, sep) + SplitAll(b, sep)
  {
    if a == [] {
      assert a + [sep] + b == [sep] + b;
      assert ([sep] + b)[1..] == b;
    } else {
      var s := a + [sep] + b;
      assert s[0] == a[0] && s[1..] == a[1..] + [sep] + b;
      SplitAllAround(a[1..], sep, b);
    }
  }

  lemma {:induction false} JoinAppend(xs: seq<string>, ys: seq<string>, sep: char)
    requires |xs| >= 1 && |ys| >= 1
    ensures Join(xs + ys, sep) == Join(xs, sep) + [sep] + Join(ys, sep)
  {
    if |xs| == 1 {
      assert (xs + ys)[1..] == ys;
    } else {
      assert (xs + ys)[1..] == xs[1..] + ys;
      JoinAppend(xs[1..], ys, sep);
    }
  }

  lemma {:induction false} JoinEmpties(k: nat, sep: char)
    requires k >= 1
    ensures Join(Empties(k), sep) == Repeat(sep, k - 1)
  {
    if k > 1 {
      JoinEmpties(k - 1, sep);
      assert Empties(k)[1..] == Empties(k - 1);
    }
  }

  lemma {:induction false} SplitAllTrailing(q: string, sep: char, k: nat)
    requires sep !in q
    ensures SplitAll(q + Repeat(sep, k), sep) == [q] + Empties(k)
  {
    if k == 0 {
      assert q + Repeat(sep, 0) == q;
      SplitAllFree(q, sep);
    } else {
      assert Repeat(sep, k) == Repeat(sep, k - 1) + [sep] by {
        RepeatSnoc(sep, k);
      }
      assert q + Repeat(sep, k) == (q + Repeat(sep, k - 1)) + [sep] + [];
      SplitAllAround(q + Repeat(sep, k - 1), sep, []);
      SplitAllTrailing(q, sep, k - 1);
      assert Empties(k) == Empties(k - 1) + [[]];
    }
  }

  lemma {:induction false} RepeatSnoc(c: char, k: nat)
    requires k >= 1
    ensures Repeat(c, k) == Repeat(c, k - 1) + [c]
  {
  }

  lemma {:induction false} DropTrailingEmptyKeeps(xs: seq<string>, k: nat)
    requires xs != [] && xs[|xs| - 1] != []
    ensures DropTrailingEmpty(xs + Empties(k)) == xs
  {
    if k > 0 {
      var ys := xs + Empties(k);
      assert ys[..|ys| - 1] == xs + Empties(k - 1);
      DropTrailingEmptyKeeps(xs, k - 1);
    }
  }

  /** What DropTrailingEmpty removed was empty pieces only. */
  lemma {:induction false} DropTrailingEmptyShape(xs: seq<string>)
    ensures |DropTrailingEmpty(xs)| <= |xs|
    ensures xs == DropTrailingEmpty(xs) + Empties(|xs| - |DropTrailingEmpty(xs)|)
    ensures DropTrailingEmpty(xs) != [] ==> DropTrailingEmpty(xs)[|DropTrailingEmpty(xs)| - 1] != []
  {
    if xs != [] && xs[|xs| - 1] == [] {
      var init := xs[..|xs| - 1];
      DropTrailingEmptyShape(init);
      assert xs == init + [[]];
      EmptiesSnocAfter(DropTrailingEmpty(init), |init| - |DropTrailingEmpty(init)|);
    } else {
      assert xs == DropTrailingEmpty(xs) + Empties(0);
    }
  }

  lemma {:induction false} EmptiesSnocAfter(d: seq<string>, k: nat)
    ensures d + Empties(k) + [[]] == d + Empties(k + 1)
  {
    EmptiesSnoc(k);
  }

  lemma {:induction false} EmptiesSnoc(k: nat)
    ensures Empties(k + 1) == Empties(k) + [[]]
  {
    if k > 0 {
      EmptiesSnoc(k - 1);
    }
  }

  /** Two pieces followed by k empty ones join to p, sep, q and k separators. */
  lemma JoinTwoAndEmpties(p: string, q: string, k: nat, sep: char)
    ensures Join([p, q] + Empties(k), sep) == p + [sep] + q + Repeat(sep, k)
  {
    JoinAppend([p], [q], sep);
    assert [p, q] == [p] + [q];
    if k == 0 {
      assert [p, q] + Empties(k) == [p, q];
      assert p + [sep] + q + Repeat(sep, 0) == p + [sep] + q;
    } else {
      JoinAppend([p, q], Empties(k), sep);
      JoinEmpties(k, sep);
    }
  }

  /** Java's split yields exactly two pieces p and q for the strings
      p + sep + q followed by any number of separators, where p and q hold no
      separator and q is not empty ("a:b:" splits as "a:b" does). */
  lemma SplitInTwoFromShape(p: string, sep: char, q: string, k: nat)
    requires sep !in p && sep !in q && q != []
    ensures JavaSplit(p + [sep] + q + Repeat(sep, k), sep) == [p, q]
  {
    var s := p + [sep] + q + Repeat(sep, k);
    assert s[|p|] == sep;
    assert s == p + [sep] + (q + Repeat(sep, k));
    SplitAllAround(p, sep, q + Repeat(sep, k));
    SplitAllFree(p, sep);
    SplitAllTrailing(q, sep, k);
    assert SplitAll(s, sep) == [p, q] + Empties(k);
    DropTrailingEmptyKeeps([p, q], k);
  }

  /** Conversely, those are the only strings Java's split cuts in two
      (so "a:" and "a::b" do not split in two). */
  lemma SplitInTwoHasShape(s: string, sep: char, p: string, q: string)
    requires JavaSplit(s, sep) == [p, q]
    ensures sep !in p && sep !in q && q != []
    ensures exists k: nat :: s == p + [sep] + q + Repeat(sep, k)
  {
    assert sep in s;
    var all := SplitAll(s, sep);
    DropTrailingEmptyShape(all);
    var k: nat := |all| - 2;
    assert all == [p, q] + Empties(k);
    SplitAllPiecesAreFree(s, sep);
    assert all[0] == p && all[1] == q;
    JoinSplitAll(s, sep);
    JoinTwoAndEmpties(p, q, k, sep);
  }

  // ---------------------------------------------------------------------------
  // Reading a text back out of a fixed envelope
  // ---------------------------------------------------------------------------

  /** m when s is head + m + tail, None otherwise. */
  function Unwrap(s: string, head: string, tail: string): Option<string> {
    if |s| < |head| + |tail| || s[..|head|] != head || s[|s| - |tail|..] != tail then None
    else Some(s[|head|..|s| - |tail|])
  }

  lemma UnwrapIff(s: string, head: string, m: string, tail: string)
    ensures Unwrap(s, head, tail) == Some(m) <==> s == head + m + tail
  {
    if s == head + m + tail {
      assert s[..|head|] == head;
      assert s[|s| - |tail|..] == tail;
      assert s[|head|..|s| - |tail|] == m;
    }
    if Unwrap(s, head, tail) == Some(m) {
      assert s == s[..|head|] + s[|head|..|s| - |tail|] + s[|s| - |tail|..];
    }
  }

  /** The longest prefix of s without c. */
  function TextBefore(s: string, c: char): (r: string)
    ensures c !in r && |r| <= |s| && r == s[..|r|]
    ensures |r| < |s| ==> s[|r|] == c
  {
    if s == [] || s[0] == c then [] else [s[0]] + TextBefore(s[1..], c)
  }

  lemma {:induction false} TextBeforeOf(a: string, b: string, c: char)
    requires c !in a && b != [] && b[0] == c
    ensures TextBefore(a + b, c) == a
  {
    if a != [] {
      assert (a + b)[1..] == a[1..] + b;
      TextBeforeOf(a[1..], b, c);
    }
  }
}
