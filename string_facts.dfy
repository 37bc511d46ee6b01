/** What the Python string operations of `PyStrings` guarantee: how
    `find`, `split`, `join`, `replace` and `strip` relate to each other. */
module PyStringFacts {
  import opened Outcomes
  import opened PyStrings
  import opened SeqFacts

  lemma {:induction false} ContainsIff(s: string, sub: string)
    ensures Contains(s, sub) <==> exists j: nat :: OccursAt(s, sub, j)
  {
  }

  /** An occurrence inside a slice is an occurrence in the whole string. */
  lemma {:induction false} OccursInSlice(s: string, sub: string, a: nat, b: nat, j: nat)
    requires a <= b <= |s| && OccursAt(s[a..b], sub, j)
    ensures OccursAt(s, sub, a + j)
  {
    var u, v := s[a..b][j..j + |sub|], s[a + j..a + j + |sub|];
    assert |u| == |v|;
    forall k | 0 <= k < |u| ensures u[k] == v[k] {}
    assert u == v;
  }

  lemma {:induction false} JoinCons(x: string, tail: seq<string>, sep: string)
    requires |tail| >= 1
    ensures Join([x] + tail, sep) == x + sep + Join(tail, sep)
  {
    assert ([x] + tail)[1..] == tail;
  }

  /** One step of a split: the piece before the first separator, then the rest. */
  lemma {:induction false} SplitStep(s: string, sep: string, i: nat)
    requires sep != [] && Find(s, sep) == Some(i)
    ensures i + |sep| <= |s|
    ensures Split(s, sep) == [s[..i]] + Split(s[i + |sep|..], sep)
    ensures s == s[..i] + sep + s[i + |sep|..]
  {
    assert s == s[..i] + sep + s[i + |sep|..] by {
      assert s[i..i + |sep|] == sep;
      assert s == s[..i] + s[i..i + |sep|] + s[i + |sep|..];
    }
  }

  /** Splitting and re-joining with the same separator gives the string back. */
  lemma {:induction false} JoinSplit(s: string, sep: string)
    requires sep != []
    ensures Join(Split(s, sep), sep) == s
    decreases |s|
  {
    var f := Find(s, sep);
    if f.Some? {
      var i := f.value;
      SplitStep(s, sep, i);
      var rest := s[i + |sep|..];
      JoinSplit(rest, sep);
      JoinCons(s[..i], Split(rest, sep), sep);
    }
  }

  /** No piece of a split contains the separator. */
  lemma {:induction false} SplitPartsFree(s: string, sep: string)
    requires sep != []
    ensures forall p :: p in Split(s, sep) ==> !Contains(p, sep)
    decreases |s|
  {
    match Find(s, sep)
    case None =>
    case Some(i) =>
      var head, rest := s[..i], s[i + |sep|..];
      SplitPartsFree(rest, sep);
      BeforeFirst(s, sep, i);
      assert Split(s, sep) == [head] + Split(rest, sep);
  }

  /** The text before the first occurrence of `sep` holds no `sep`. */
  lemma {:induction false} BeforeFirst(s: string, sep: string, i: nat)
    requires sep != [] && Find(s, sep) == Some(i)
    ensures i + |sep| <= |s| && !Contains(s[..i], sep)
  {
    var head := s[..i];
    forall j: nat ensures !OccursAt(head, sep, j) {
      if j < i {
        NotInPrefix(s, sep, i, j);
      }
    }
    ContainsIff(head, sep);
  }

  /** Where `sep` does not occur in the whole string, it does not occur in
      a prefix either. */
  lemma {:induction false} NotInPrefix(s: string, sep: string, i: nat, j: nat)
    requires i <= |s| && !OccursAt(s, sep, j)
    ensures !OccursAt(s[..i], sep, j)
  {
    if j + |sep| <= i {
      assert s[..i][j..j + |sep|] == s[j..j + |sep|];
    }
  }

  /** The first piece of a split is the text before the first separator. */
  lemma {:induction false} SplitHead(s: string, sep: string)
    requires sep != []
    ensures Find(s, sep).None? ==> Split(s, sep) == [s]
    ensures Find(s, sep).Some? ==> Split(s, sep)[0] == s[..Find(s, sep).value]
  {
  }

  /** The first piece of a split is a prefix that ends at the end of the
      string or at an occurrence of the separator. */
  lemma {:induction false} HeadPiece(s: string, sep: string)
    requires sep != []
    ensures var p := Split(s, sep)[0];
      |p| <= |s| && s[..|p|] == p && (|p| == |s| || OccursAt(s, sep, |p|))
  {
    SplitHead(s, sep);
  }

  /** After the first separator, the split goes on with the rest. */
  lemma {:induction false} SplitTail(s: string, sep: string)
    requires sep != [] && Contains(s, sep)
    ensures var rest := s[Find(s, sep).value + |sep|..];
      |Split(s, sep)| >= 2 && Split(s, sep)[1] == Split(rest, sep)[0]
  {
    SplitStep(s, sep, Find(s, sep).value);
  }

  lemma {:induction false} PiecesFree(s: string, sep: string, i: nat)
    requires sep != [] && i < |Split(s, sep)|
    ensures !Contains(Split(s, sep)[i], sep)
  {
    SplitPartsFree(s, sep);
    assert Split(s, sep)[i] in Split(s, sep);
  }

  /** A piece at the front of a suffix of `s` is a piece of `s` itself. */
  lemma {:induction false} InSuffix(s: string, k: nat, p: string, sep: string)
    requires k <= |s| && var rest := s[k..];
      |p| <= |rest| && rest[..|p|] == p && (|p| == |rest| || OccursAt(rest, sep, |p|))
    ensures k + |p| <= |s| && s[k..k + |p|] == p
    ensures k + |p| == |s| || OccursAt(s, sep, k + |p|)
  {
    var rest := s[k..];
    assert s[k..k + |p|] == rest[..|p|];
    if |p| < |rest| {
      assert s[k + |p|..k + |p| + |sep|] == rest[|p|..|p| + |sep|];
    }
  }

  /** The second piece of a split is the text right after the first
      separator, up to the next separator or the end. */
  lemma {:induction false} SplitSecond(s: string, sep: string)
    requires sep != [] && Contains(s, sep)
    ensures |Split(s, sep)| >= 2
    ensures var i, p := Find(s, sep).value + |sep|, Split(s, sep)[1];
      && i + |p| <= |s| && s[i..i + |p|] == p
      && !Contains(p, sep)
      && (i + |p| == |s| || OccursAt(s, sep, i + |p|))
  {
    SplitTail(s, sep);
    FirstPieceIn(s, sep, Find(s, sep).value + |sep|, Split(s, sep)[1]);
  }

  /** The first piece of the split of `s[k..]`, seen inside `s`. */
  lemma {:induction false} FirstPieceIn(s: string, sep: string, k: nat, p: string)
    requires sep != [] && k <= |s| && p == Split(s[k..], sep)[0]
    ensures k + |p| <= |s| && s[k..k + |p|] == p && !Contains(p, sep)
    ensures k + |p| == |s| || OccursAt(s, sep, k + |p|)
  {
    var rest := s[k..];
    PiecesFree(rest, sep, 0);
    HeadPiece(rest, sep);
    InSuffix(s, k, p, sep);
  }

  /** A string without the separator splits into itself alone. */
  lemma {:induction false} SplitFree(s: string, sep: string)
    requires sep != [] && !Contains(s, sep)
    ensures Split(s, sep) == [s]
  {
  }

  /** Before the separator that follows `a`, there is no occurrence of it:
      not inside `a`, and not straddling the boundary. */
  lemma {:induction false} NoOccurrenceBefore(a: string, sep: string, b: string, j: nat)
    requires sep != [] && BorderFree(sep) && !Contains(a, sep) && j < |a|
    ensures !OccursAt(a + sep + b, sep, j)
  {
    var s := a + sep + b;
    if j + |sep| <= |a| {
      assert s[j..j + |sep|] == a[j..j + |sep|];
      assert !OccursAt(a, sep, j);
    } else if j + |sep| <= |s| {
      var k := |a| - j;
      var window := s[j..j + |sep|];
      forall m | 0 <= m < |sep| - k ensures window[k..][m] == sep[..|sep| - k][m] {
        assert window[k..][m] == s[|a| + m];
      }
      assert window[k..] == sep[..|sep| - k];
      assert sep[k..] != sep[..|sep| - k];
    }
  }

  /** Splitting `a + sep + b` where `a` has no separator and the separator
      cannot overlap itself. */
  lemma {:induction false} SplitAfterFirst(a: string, sep: string, b: string)
    requires sep != [] && BorderFree(sep) && !Contains(a, sep)
    ensures Split(a + sep + b, sep) == [a] + Split(b, sep)
  {
    var s := a + sep + b;
    assert OccursAt(s, sep, |a|) by { assert s[|a|..|a| + |sep|] == sep; }
    forall j: nat | j < |a| ensures !OccursAt(s, sep, j) {
      NoOccurrenceBefore(a, sep, b, j);
    }
    assert Find(s, sep) == Some(|a|);
    SplitStep(s, sep, |a|);
    assert s[..|a|] == a;
    assert s[|a| + |sep|..] == b;
  }

  /** Splitting on one character around an occurrence of it splits each
      side on its own. */
  lemma {:induction false} SplitAround(x: string, c: char, y: string)
    ensures Split(x + [c] + y, [c]) == Split(x, [c]) + Split(y, [c])
    decreases |x|
  {
    var f := Find(x, [c]);
    if f.None? {
      SplitAroundFree(x, c, y);
    } else {
      var i := f.value;
      assert i < |x|;
      SplitAround(x[i + 1..], c, y);
      SplitAroundStep(x, c, y, i);
    }
  }

  /** The step of `SplitAround` at the first `c` of `x`. */
  lemma {:induction false} SplitAroundStep(x: string, c: char, y: string, i: nat)
    requires Find(x, [c]) == Some(i) && i < |x|
    requires Split(x[i + 1..] + [c] + y, [c]) == Split(x[i + 1..], [c]) + Split(y, [c])
    ensures Split(x + [c] + y, [c]) == Split(x, [c]) + Split(y, [c])
  {
    SplitAroundFirst(x, c, y, i);
    ConsAssociates(Split(x + [c] + y, [c]), Split(x[i + 1..] + [c] + y, [c]),
                   Split(x[i + 1..], [c]), Split(y, [c]), Split(x, [c]), x[..i]);
  }

  lemma {:induction false} SplitAroundFree(x: string, c: char, y: string)
    requires Find(x, [c]).None?
    ensures Split(x + [c] + y, [c]) == [x] + Split(y, [c])
    ensures Split(x, [c]) == [x]
  {
    assert BorderFree([c]);
    SplitAfterFirst(x, [c], y);
  }

  lemma {:induction false} SplitAroundFirst(x: string, c: char, y: string, i: nat)
    requires Find(x, [c]) == Some(i)
    ensures i < |x|
    ensures Split(x, [c]) == [x[..i]] + Split(x[i + 1..], [c])
    ensures Split(x + [c] + y, [c]) == [x[..i]] + Split(x[i + 1..] + [c] + y, [c])
  {
    var head, tail := x[..i], x[i + 1..];
    BeforeFirstChar(x, c, i);
    assert Split(x, [c]) == [head] + Split(tail, [c]) by {
      SplitStep(x, [c], i);
    }
    var z := tail + [c] + y;
    assert x + [c] + y == head + [c] + z by {
      assert x == head + [c] + tail;
    }
    assert Split(head + [c] + z, [c]) == [head] + Split(z, [c]) by {
      assert BorderFree([c]);
      SplitAfterFirst(head, [c], z);
    }
  }

  /** The text before the first `c` holds no `c`, and `c` follows it. */
  lemma {:induction false} BeforeFirstChar(x: string, c: char, i: nat)
    requires Find(x, [c]) == Some(i)
    ensures i < |x| && x == x[..i] + [c] + x[i + 1..] && !Contains(x[..i], [c])
  {
    var head := x[..i];
    forall j | 0 <= j < |head| ensures head[j] != c {
      assert !OccursAt(x, [c], j);
      assert x[j..j + 1][0] == head[j];
    }
    ContainsChar(head, c);
    assert x[i..i + 1] == [c];
    assert x == head + x[i..i + 1] + x[i + 1..];
  }

  /** `strip` keeps the contiguous middle part of the string that starts
      and ends with a character other than whitespace, and what it removes
      before and after that part is whitespace. */
  lemma {:induction false} StripShape(s: string)
    ensures var i := |s| - |LStrip(s)|; var r := Strip(s);
      && i + |r| <= |s| && r == s[i..i + |r|]
      && (forall k :: 0 <= k < i ==> IsSpace(s[k]))
      && (forall k :: i + |r| <= k < |s| ==> IsSpace(s[k]))
      && (r == [] || (!IsSpace(r[0]) && !IsSpace(r[|r| - 1])))
  {
    var i := LeadingEnd(s, 0);
    var l := s[i..];
    var j := TrailingStart(l, |l|);
    assert Strip(s) == l[..j] == s[i..i + j];
    forall k | i + j <= k < |s| ensures IsSpace(s[k]) {
      assert s[k] == l[k - i];
    }
    if j > 0 {
      assert l[0] == s[i];
    }
  }

  /** Stripping twice is stripping once. */
  lemma {:induction false} StripIdempotent(s: string)
    ensures Strip(Strip(s)) == Strip(s)
  {
    var r := Strip(s);
    StripShape(s);
    if r != [] {
      assert LeadingEnd(r, 0) == 0;
      assert LStrip(r) == r by { assert r[0..] == r; }
      assert TrailingStart(r, |r|) == |r|;
      assert RStrip(r) == r by { assert r[..|r|] == r; }
    }
  }

  /** Lower-casing never produces an upper-case ASCII letter and leaves every
      other character where it was. */
  lemma {:induction false} LowerFolds(s: string)
    ensures forall i :: 0 <= i < |s| ==> !('A' <= Lower(s)[i] <= 'Z')
    ensures forall i :: 0 <= i < |s| && !('A' <= s[i] <= 'Z') ==> Lower(s)[i] == s[i]
  {
  }

  /** For a one-character needle, `sub in s` is plain membership. */
  lemma {:induction false} ContainsChar(s: string, c: char)
    ensures Contains(s, [c]) <==> c in s
  {
    if c in s {
      var i :| 0 <= i < |s| && s[i] == c;
      assert s[i..i + 1] == [c];
      assert OccursAt(s, [c], i);
    }
    if Contains(s, [c]) {
      var i := Find(s, [c]).value;
      assert s[i..i + 1][0] == s[i];
    }
  }

  /** A character found in neither the pieces nor the separator is not in their join. */
  lemma {:induction false} JoinAvoids(parts: seq<string>, sep: string, c: char)
    requires forall p :: p in parts ==> c !in p
    requires c !in sep
    ensures c !in Join(parts, sep)
    decreases |parts|
  {
    if |parts| > 1 {
      JoinAvoids(parts[1..], sep, c);
      assert parts[0] in parts;
    } else if |parts| == 1 {
      assert parts[0] in parts;
    }
  }

  /** Replacing every `c` by a text without `c` leaves no `c` behind. */
  lemma {:induction false} ReplaceRemoves(s: string, c: char, replacement: string)
    requires c !in replacement
    ensures c !in Replace(s, [c], replacement)
  {
    SplitPartsFree(s, [c]);
    forall p | p in Split(s, [c]) ensures c !in p {
      ContainsChar(p, c);
    }
    JoinAvoids(Split(s, [c]), replacement, c);
  }

  lemma {:induction false} SubstituteConcat(a: string, b: string, c: char, replacement: string)
    ensures SubstituteChar(a + b, c, replacement) == SubstituteChar(a, c, replacement) + SubstituteChar(b, c, replacement)
    decreases |a|
  {
    if a == [] {
      assert a + b == b;
    } else {
      assert (a + b)[1..] == a[1..] + b;
      SubstituteConcat(a[1..], b, c, replacement);
    }
  }

  lemma {:induction false} SubstituteAbsent(s: string, c: char, replacement: string)
    requires c !in s
    ensures SubstituteChar(s, c, replacement) == s
    decreases |s|
  {
    if s != [] {
      SubstituteAbsent(s[1..], c, replacement);
    }
  }

  /** `str.replace` with a one-character target agrees with the
      character-by-character substitution. */
  lemma {:induction false} ReplaceIsSubstitution(s: string, c: char, replacement: string)
    ensures Replace(s, [c], replacement) == SubstituteChar(s, c, replacement)
    decreases |s|
  {
    match Find(s, [c])
    case None =>
      SplitHead(s, [c]);
      ContainsChar(s, c);
      SubstituteAbsent(s, c, replacement);
    case Some(i) =>
      ReplaceFirst(s, c, replacement, i);
      SubstituteFirst(s, c, replacement, i);
      ReplaceIsSubstitution(s[i + 1..], c, replacement);
  }

  /** `replace` copies the text before the first `c`, puts the replacement in
      its place and goes on after it. */
  lemma {:induction false} ReplaceFirst(s: string, c: char, replacement: string, i: nat)
    requires Find(s, [c]) == Some(i)
    ensures i < |s|
    ensures Replace(s, [c], replacement) == s[..i] + replacement + Replace(s[i + 1..], [c], replacement)
  {
    SplitStep(s, [c], i);
    JoinCons(s[..i], Split(s[i + 1..], [c]), replacement);
  }

  /** The substitution does the same around the first `c`. */
  lemma {:induction false} SubstituteFirst(s: string, c: char, replacement: string, i: nat)
    requires Find(s, [c]) == Some(i)
    ensures i < |s|
    ensures SubstituteChar(s, c, replacement) == s[..i] + replacement + SubstituteChar(s[i + 1..], c, replacement)
  {
    var head, rest := s[..i], s[i + 1..];
    BeforeFirstChar(s, c, i);
    assert SubstituteChar(head, c, replacement) == head by {
      ContainsChar(head, c);
      SubstituteAbsent(head, c, replacement);
    }
    assert SubstituteChar([c] + rest, c, replacement) == replacement + SubstituteChar(rest, c, replacement) by {
      assert ([c] + rest)[1..] == rest;
    }
    assert SubstituteChar(s, c, replacement)
        == SubstituteChar(head, c, replacement) + SubstituteChar([c] + rest, c, replacement) by {
      assert s == head + ([c] + rest);
      SubstituteConcat(head, [c] + rest, c, replacement);
    }
    assert head + (replacement + SubstituteChar(rest, c, replacement))
        == head + replacement + SubstituteChar(rest, c, replacement);
  }
}
