/** The parts of Python's `str` that the scripts rely on: `in`, `find`,
    `split(sep)`, `join`, `replace`, `strip`, `lower`, `startswith`, `endswith`
    and slicing, each with the Python semantics spelled out. */
module PyStrings {
  import opened Outcomes

  /** `sub` occurs in `s` starting at index `i`. */
  predicate OccursAt(s: string, sub: string, i: nat)
  {
    i + |sub| <= |s| && s[i..i + |sub|] == sub
  }

  /** The first occurrence of `sub` in `s` at or after `i`. */
  function FindFrom(s: string, sub: string, i: nat): (r: Option<nat>)
    requires i <= |s|
    ensures r.Some? ==> i <= r.value && OccursAt(s, sub, r.value)
    ensures r.Some? ==> forall j: nat :: i <= j < r.value ==> !OccursAt(s, sub, j)
    ensures r.None? ==> forall j: nat :: i <= j ==> !OccursAt(s, sub, j)
    decreases |s| - i
  {
    if OccursAt(s, sub, i) then Some(i)
    else if i == |s| then None
    else FindFrom(s, sub, i + 1)
  }

  /** `s.find(sub)`, with `None` where Python returns -1. */
  function Find(s: string, sub: string): (r: Option<nat>)
    ensures r.Some? ==> OccursAt(s, sub, r.value) && forall j: nat :: j < r.value ==> !OccursAt(s, sub, j)
    ensures r.None? ==> forall j: nat :: !OccursAt(s, sub, j)
  {
    FindFrom(s, sub, 0)
  }

  /** `sub in s`. */
  predicate Contains(s: string, sub: string)
  {
    Find(s, sub).Some?
  }

  /** `s.startswith(p)`. */
  predicate StartsWith(s: string, p: string)
  {
    |p| <= |s| && s[..|p|] == p
  }

  /** `s.endswith(p)`. */
  predicate EndsWith(s: string, p: string)
  {
    |p| <= |s| && s[|s| - |p|..] == p
  }

  /** `s.split(sep)` for a non-empty separator: the pieces between the
      non-overlapping occurrences of `sep`, scanned from the left. */
  function Split(s: string, sep: string): (parts: seq<string>)
    requires sep != []
    ensures |parts| >= 1
    decreases |s|
  {
    match Find(s, sep)
    case None => [s]
    case Some(i) => [s[..i]] + Split(s[i + |sep|..], sep)
  }

  /** `sep.join(parts)`. */
  function Join(parts: seq<string>, sep: string): string
  {
    if |parts| == 0 then []
    else if |parts| == 1 then parts[0]
    else parts[0] + sep + Join(parts[1..], sep)
  }

  /** `s.replace(old, new)`: every non-overlapping occurrence of `target`,
      scanned from the left, is replaced by `replacement`. */
  function Replace(s: string, target: string, replacement: string): string
    requires target != []
  {
    Join(Split(s, target), replacement)
  }

  /** No proper suffix of `sep` is also a prefix of it, so two occurrences
      of `sep` never overlap. */
  predicate BorderFree(sep: string)
  {
    forall k :: 0 < k < |sep| ==> sep[k..] != sep[..|sep| - k]
  }

  /** `s.find(sub)` exactly as Python returns it: -1 when `sub` is absent. */
  function PyFind(s: string, sub: string): int
  {
    match Find(s, sub)
    case Some(i) => i
    case None => -1
  }

  /** A Python slice bound: negative bounds count from the end, and every
      bound is clamped into `0..n`. */
  function PyBound(i: int, n: nat): (b: nat)
    ensures b <= n
  {
    if i < 0 then (if i + n < 0 then 0 else i + n)
    else if i > n then n
    else i
  }

  /** `s[start:end]`: empty when the normalised start is not before the end. */
  function PySlice(s: string, start: int, end: int): string
  {
    var a, b := PyBound(start, |s|), PyBound(end, |s|);
    if a < b then s[a..b] else []
  }

  /** The characters `str.isspace()` accepts, which `str.strip()` removes:
      tab to carriage return, the four information separators, the space,
      next line, no-break space, Ogham space mark, the spaces from en quad
      to hair space, the line and paragraph separators, the narrow
      no-break space, the medium mathematical space and the ideographic
      space. */
  const Whitespace: string :=
    ['\t', '\n', '\U{000B}', '\U{000C}', '\r', '\U{001C}', '\U{001D}', '\U{001E}', '\U{001F}', ' ',
     '\U{0085}', '\U{00A0}', '\U{1680}', '\U{2000}', '\U{2001}', '\U{2002}', '\U{2003}', '\U{2004}',
     '\U{2005}', '\U{2006}', '\U{2007}', '\U{2008}', '\U{2009}', '\U{200A}', '\U{2028}', '\U{2029}',
     '\U{202F}', '\U{205F}', '\U{3000}']

  /** Whether `c` is one of `chars`, looked for one by one. */
  predicate OneOf(c: char, chars: string)
  {
    chars != [] && (chars[0] == c || OneOf(c, chars[1..]))
  }

  predicate IsSpace(c: char)
  {
    OneOf(c, Whitespace)
  }

  /** The index of the first character, from `k` on, that is not
      whitespace, or the length of `s` when there is none. */
  function LeadingEnd(s: string, k: nat): (n: nat)
    requires k <= |s|
    ensures k <= n <= |s|
    ensures forall i :: k <= i < n ==> IsSpace(s[i])
    ensures n == |s| || !IsSpace(s[n])
    decreases |s| - k
  {
    if k < |s| && IsSpace(s[k]) then LeadingEnd(s, k + 1) else k
  }

  /** The index just past the last character before `k` that is not
      whitespace, or 0 when there is none. */
  function TrailingStart(s: string, k: nat): (n: nat)
    requires k <= |s|
    ensures n <= k
    ensures forall i :: n <= i < k ==> IsSpace(s[i])
    ensures n == 0 || !IsSpace(s[n - 1])
  {
    if k > 0 && IsSpace(s[k - 1]) then TrailingStart(s, k - 1) else k
  }

  /** `s.lstrip()`: the suffix left after dropping leading whitespace. */
  function LStrip(s: string): string
  {
    s[LeadingEnd(s, 0)..]
  }

  /** `s.rstrip()`: the prefix left after dropping trailing whitespace. */
  function RStrip(s: string): string
  {
    s[..TrailingStart(s, |s|)]
  }

  /** `s.strip()`. */
  function Strip(s: string): string
  {
    RStrip(LStrip(s))
  }

  /** ASCII case folding of one character. */
  function LowerChar(c: char): char
  {
    if 'A' <= c <= 'Z' then (c as int + 32) as char else c
  }

  /** `s.lower()`, for the ASCII letters. */
  function Lower(s: string): (r: string)
    ensures |r| == |s|
    ensures forall i :: 0 <= i < |s| ==> r[i] == LowerChar(s[i])
  {
    if s == [] then [] else [LowerChar(s[0])] + Lower(s[1..])
  }

  /** Character-by-character substitution: the reference definition of
      replacing a single character. */
  function SubstituteChar(s: string, c: char, replacement: string): string
  {
    if s == [] then []
    else (if s[0] == c then replacement else [s[0]]) + SubstituteChar(s[1..], c, replacement)
  }

  /** `str(n)` for a natural number: its decimal digits, most significant first. */
  function NatToString(n: nat): (r: string)
    ensures |r| > 0 && forall i :: 0 <= i < |r| ==> '0' <= r[i] <= '9'
    ensures |r| > 1 ==> r[0] != '0'
  {
    var digit := ('0' as int + n % 10) as char;
    if n < 10 then [digit] else NatToString(n / 10) + [digit]
  }
}
