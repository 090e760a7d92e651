/** Character-separated splitting of strings, as Go's `strings.Split` does it
    for a separator of exactly one character. */
module Strings {

  /** Index of the first occurrence of `c` in `s`, or `|s|` when there is none. */
  function FirstIndex(s: string, c: char): (i: nat)
    ensures i <= |s|
    decreases |s|
  {
    if |s| == 0 then 0
    else if s[0] == c then 0
    else 1 + FirstIndex(s[1..], c)
  }

  /** `FirstIndex` finds the first occurrence: the character there is `c`,
      none before it is, and it reaches the end exactly when `c` is absent. */
  lemma {:induction false} FirstIndexSpec(s: string, c: char)
    ensures var i := FirstIndex(s, c);
      && (i < |s| ==> s[i] == c)
      && (forall j :: 0 <= j < i ==> s[j] != c)
      && (i == |s| <==> c !in s)
    decreases |s|
  {
    if |s| > 0 && s[0] != c {
      FirstIndexSpec(s[1..], c);
      assert forall j :: 1 <= j < |s| ==> s[j] == s[1..][j - 1];
    }
  }

  /** Splits `s` around EVERY occurrence of `c`: the text before the first
      one, then recursively the pieces of what follows it. There is always at
      least one piece; the empty string gives one empty piece. */
  function Split(s: string, c: char): (parts: seq<string>)
    ensures |parts| >= 1
    decreases |s|
  {
    var i := FirstIndex(s, c);
    if i == |s| then [s]
    else [s[..i]] + Split(s[i + 1..], c)
  }

  /** There is more than one piece exactly when the separator occurs, and no
      piece contains it. */
  lemma {:induction false} SplitSpec(s: string, c: char)
    ensures |Split(s, c)| == 1 <==> c !in s
    ensures forall k :: 0 <= k < |Split(s, c)| ==> c !in Split(s, c)[k]
    decreases |s|
  {
    FirstIndexSpec(s, c);
    var i := FirstIndex(s, c);
    var parts := Split(s, c);
    if i < |s| {
      var rest := Split(s[i + 1..], c);
      SplitSpec(s[i + 1..], c);
      assert parts == [s[..i]] + rest;
      assert c in s by { assert s[i] == c; }
      assert c !in parts[0];
      forall k | 1 <= k < |parts|
        ensures c !in parts[k]
      {
        assert parts[k] == rest[k - 1];
      }
    } else {
      assert parts == [s];
    }
  }

  /** Glues `parts` back together with one `c` between neighbours. */
  function Join(parts: seq<string>, c: char): string
    requires |parts| >= 1
    decreases |parts|
  {
    if |parts| == 1 then parts[0]
    else parts[0] + [c] + Join(parts[1..], c)
  }

  /** Joining the pieces restores the input: splitting loses nothing but
      the separators. */
  lemma {:induction false} JoinSplit(s: string, c: char)
    ensures Join(Split(s, c), c) == s
    decreases |s|
  {
    FirstIndexSpec(s, c);
    var i := FirstIndex(s, c);
    if i < |s| {
      var head, rest := s[..i], s[i + 1..];
      JoinSplit(rest, c);
      var parts := Split(s, c);
      assert parts == [head] + Split(rest, c);
      assert parts[1..] == Split(rest, c);
      assert Join(parts, c) == head + [c] + rest;
      CutAt(s, i);
    } else {
      assert Split(s, c) == [s];
    }
  }

  /** A string is the text before position `i`, the character there, and the text after it. */
  lemma CutAt(s: string, i: nat)
    requires i < |s|
    ensures s == s[..i] + [s[i]] + s[i + 1..]
  {
  }

  /** Every character of a piece occurs in the joined text. */
  lemma {:induction false} JoinContains(parts: seq<string>, c: char, k: nat, x: char)
    requires k < |parts| && x in parts[k]
    ensures x in Join(parts, c)
    decreases |parts|
  {
    if k > 0 {
      JoinContains(parts[1..], c, k - 1, x);
    }
  }

  /** A character missing from the input is missing from every piece. */
  lemma PieceAvoids(s: string, c: char, d: char, k: nat)
    requires d !in s && k < |Split(s, c)|
    ensures d !in Split(s, c)[k]
  {
    if d in Split(s, c)[k] {
      JoinContains(Split(s, c), c, k, d);
      JoinSplit(s, c);
    }
  }

  /** A string without the separator is its own single piece. */
  lemma SplitWithout(s: string, c: char)
    requires c !in s
    ensures Split(s, c) == [s]
  {
    FirstIndexSpec(s, c);
  }

  /** Splitting stops at the first separator: what precedes it is the first
      piece, and the remaining pieces come from the text after it alone. */
  lemma SplitAtFirst(p: string, q: string, c: char)
    requires c !in p
    ensures Split(p + [c] + q, c) == [p] + Split(q, c)
  {
    var s := p + [c] + q;
    assert s[|p|] == c;
    assert forall j :: 0 <= j < |p| ==> s[j] == p[j];
    FirstIndexSpec(s, c);
    assert FirstIndex(s, c) == |p|;
    assert s[..|p|] == p;
    assert s[|p| + 1..] == q;
  }

  /** Exactly one separator gives exactly two pieces. */
  lemma SplitTwo(p: string, q: string, c: char)
    requires c !in p && c !in q
    ensures Split(p + [c] + q, c) == [p, q]
  {
    SplitAtFirst(p, q, c);
    SplitWithout(q, c);
  }

  /** Splitting undoes joining whenever no piece holds the separator:
      together with `Join(Split(s, c), c) == s` the two are inverses. */
  lemma {:induction false} SplitJoin(parts: seq<string>, c: char)
    requires |parts| >= 1
    requires forall k :: 0 <= k < |parts| ==> c !in parts[k]
    ensures Split(Join(parts, c), c) == parts
    decreases |parts|
  {
    if |parts| == 1 {
      SplitWithout(parts[0], c);
    } else {
      SplitJoin(parts[1..], c);
      SplitAtFirst(parts[0], Join(parts[1..], c), c);
      assert parts == [parts[0]] + parts[1..];
    }
  }

  /** The text before the first `c`, or all of `s` when there is none. */
  function Before(s: string, c: char): (b: string)
    ensures c !in b
    ensures c !in s ==> b == s
  {
    FirstIndexSpec(s, c);
    s[..FirstIndex(s, c)]
  }

  /** The text after the first `c`, or empty when there is none. */
  function After(s: string, c: char): string {
    var i := FirstIndex(s, c);
    if i < |s| then s[i + 1..] else ""
  }

  /** Piece 0 of a split is the text before the first separator. */
  lemma SplitHead(s: string, c: char)
    ensures Split(s, c)[0] == Before(s, c)
  {
    FirstIndexSpec(s, c);
  }

  /** When the separator occurs, piece 1 of a split is the text between the
      first separator and the next one. */
  lemma SplitSecond(s: string, c: char)
    requires c in s
    ensures |Split(s, c)| > 1
    ensures Split(s, c)[1] == Before(After(s, c), c)
  {
    var i := FirstIndex(s, c);
    FirstIndexSpec(s, c);
    var rest := s[i + 1..];
    assert After(s, c) == rest;
    assert Split(s, c) == [s[..i]] + Split(rest, c);
    assert Split(s, c)[1] == Split(rest, c)[0];
    SplitHead(rest, c);
  }

  /** The two pieces a caller of `Split` reads are the text before the first
      separator and the text between the first and the second one. */
  lemma SplitPieces(s: string, c: char)
    ensures Split(s, c)[0] == Before(s, c)
    ensures c in s ==> Split(s, c)[1] == Before(After(s, c), c)
  {
    SplitHead(s, c);
    if c in s {
      SplitSecond(s, c);
    }
  }
}
