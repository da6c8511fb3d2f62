/** Python `str` operations used by the assistant's text pipeline, stated over
    `seq<char>`: whitespace as `str.isspace`, `strip`, ASCII `lower`, `in`,
    `find`/`rfind`, `split`, `"\n".join` and `splitlines` (on "\n" only). */
module Text {

  datatype Option<+T> = None | Some(value: T)

  /** The characters for which Python's `str.isspace()` holds; the same set is
      matched by `\s` in a `re` pattern over `str`. */
  predicate IsSpace(c: char) {
    var n := c as int;
    (9 <= n <= 13)          // \t \n \v \f \r
    || (28 <= n <= 32)      // the four separators U+1C..U+1F and the space
    || n == 0x85 || n == 0xA0 || n == 0x1680
    || (0x2000 <= n <= 0x200A) || n == 0x2028 || n == 0x2029
    || n == 0x202F || n == 0x205F || n == 0x3000
  }

  /** The class `[ \t]`. */
  predicate IsBlank(c: char) {
    c == ' ' || c == '\t'
  }

  /** The class `\w`, restricted to ASCII. */
  predicate IsWordChar(c: char) {
    ('a' <= c <= 'z') || ('A' <= c <= 'Z') || ('0' <= c <= '9') || c == '_'
  }

  function LowerChar(c: char): (r: char)
    ensures !('A' <= r <= 'Z')
    ensures !('A' <= c <= 'Z') ==> r == c
    ensures IsSpace(r) <==> IsSpace(c)
    ensures IsWordChar(r) <==> IsWordChar(c)
  {
    if 'A' <= c <= 'Z' then (c as int - 'A' as int + 'a' as int) as char else c
  }

  /** `s.lower()` for ASCII letters; every other character is kept. */
  function Lower(s: string): (r: string)
    ensures |r| == |s|
    ensures forall i :: 0 <= i < |s| ==> r[i] == LowerChar(s[i])
  {
    seq(|s|, i requires 0 <= i < |s| => LowerChar(s[i]))
  }

  /** `.lower()` leaves a text without capitals alone. */
  lemma {:induction false} LowerOfLowerCase(s: string)
    requires forall i :: 0 <= i < |s| ==> !('A' <= s[i] <= 'Z')
    ensures Lower(s) == s
  {
  }

  /** Lowering twice is lowering once. */
  lemma {:induction false} LowerIdempotent(s: string)
    ensures Lower(Lower(s)) == Lower(s)
  {
    LowerOfLowerCase(Lower(s));
  }

  lemma {:induction false} LowerSlice(s: string, a: nat, b: nat)
    requires a <= b <= |s|
    ensures Lower(s[a..b]) == Lower(s)[a..b]
  {
  }

  predicate StartsWith(s: string, p: string) {
    |p| <= |s| && s[..|p|] == p
  }

  predicate EndsWith(s: string, p: string) {
    |p| <= |s| && s[|s| - |p|..] == p
  }

  /** `w` occurs in `s` starting at index `k`. */
  predicate OccursAt(s: string, w: string, k: int) {
    0 <= k && k + |w| <= |s| && s[k..k + |w|] == w
  }

  /** Case-insensitive occurrence of the lower-case word `w` (flag `re.IGNORECASE`). */
  predicate OccursAtCI(s: string, w: string, k: int) {
    OccursAt(Lower(s), w, k)
  }

  /** `s.find(w, from)`: the first occurrence at or after `from`. */
  function IndexOf(s: string, w: string, from: nat): (r: Option<nat>)
    ensures r.Some? ==> from <= r.value && OccursAt(s, w, r.value)
    ensures r.Some? ==> forall k :: from <= k < r.value ==> !OccursAt(s, w, k)
    ensures r.None? ==> forall k :: from <= k ==> !OccursAt(s, w, k)
    decreases |s| - from
  {
    if from + |w| > |s| then None
    else if s[from..from + |w|] == w then Some(from)
    else IndexOf(s, w, from + 1)
  }

  function IndexOfCI(s: string, w: string, from: nat): (r: Option<nat>)
    ensures r.Some? ==> from <= r.value && OccursAtCI(s, w, r.value)
    ensures r.Some? ==> forall k :: from <= k < r.value ==> !OccursAtCI(s, w, k)
    ensures r.None? ==> forall k :: from <= k ==> !OccursAtCI(s, w, k)
  {
    IndexOf(Lower(s), w, from)
  }

  /** Python's `w in s`. */
  predicate Contains(s: string, w: string)
    ensures Contains(s, w) <==> exists k :: OccursAt(s, w, k)
  {
    IndexOf(s, w, 0).Some?
  }

  /** `s.rfind(w)`: the last occurrence. */
  function LastIndexOf(s: string, w: string): (r: Option<nat>)
    ensures r.Some? ==> OccursAt(s, w, r.value) && forall k :: r.value < k ==> !OccursAt(s, w, k)
    ensures r.None? ==> forall k :: !OccursAt(s, w, k)
  {
    LastIndexBelow(s, w, |s| + 1)
  }

  function LastIndexBelow(s: string, w: string, below: nat): (r: Option<nat>)
    ensures r.Some? ==> r.value < below && OccursAt(s, w, r.value)
    ensures r.Some? ==> forall k :: r.value < k < below ==> !OccursAt(s, w, k)
    ensures r.None? ==> forall k :: k < below ==> !OccursAt(s, w, k)
  {
    if below == 0 then None
    else if OccursAt(s, w, below - 1) then Some(below - 1)
    else LastIndexBelow(s, w, below - 1)
  }

  /** The first index at or after `i` that is not whitespace (or `|s|`):
      where a greedy `\s*` starting at `i` stops. */
  function SkipSpaces(s: string, i: nat): (j: nat)
    requires i <= |s|
    ensures i <= j <= |s|
    ensures forall t :: i <= t < j ==> IsSpace(s[t])
    ensures j < |s| ==> !IsSpace(s[j])
    decreases |s| - i
  {
    if i < |s| && IsSpace(s[i]) then SkipSpaces(s, i + 1) else i
  }

  /** The characterisation above determines the stopping point. */
  lemma {:induction false} SkipSpacesUnique(s: string, i: nat, j: nat)
    requires i <= j <= |s|
    requires forall t :: i <= t < j ==> IsSpace(s[t])
    requires j < |s| ==> !IsSpace(s[j])
    ensures SkipSpaces(s, i) == j
  {
  }

  /** `s.lstrip()`. */
  function LStrip(s: string): (r: string)
    ensures |r| <= |s| && r == s[|s| - |r|..]
    ensures forall t :: 0 <= t < |s| - |r| ==> IsSpace(s[t])
    ensures r == [] || !IsSpace(r[0])
  {
    if |s| > 0 && IsSpace(s[0]) then LStrip(s[1..]) else s
  }

  /** `s.rstrip()`. */
  function RStrip(s: string): (r: string)
    ensures |r| <= |s| && r == s[..|r|]
    ensures forall t :: |r| <= t < |s| ==> IsSpace(s[t])
    ensures r == [] || !IsSpace(r[|r| - 1])
  {
    if |s| > 0 && IsSpace(s[|s| - 1]) then RStrip(s[..|s| - 1]) else s
  }

  /** `s.strip()`: the slice `s[a..b]` left after removing whitespace at both ends. */
  function Strip(s: string): (r: string)
    ensures exists a, b :: (0 <= a <= b <= |s| && r == s[a..b]
      && (forall t :: 0 <= t < a ==> IsSpace(s[t]))
      && (forall t :: b <= t < |s| ==> IsSpace(s[t])))
    ensures r == [] || (!IsSpace(r[0]) && !IsSpace(r[|r| - 1]))
  {
    var l := LStrip(s);
    var r := RStrip(l);
    StripSlice(s, l, r);
    r
  }

  /** Where the result of `strip()` sits in the text. */
  lemma {:induction false} StripSlice(s: string, l: string, r: string)
    requires l == LStrip(s) && r == RStrip(l)
    ensures var a := |s| - |l|;
      0 <= a <= a + |r| <= |s| && r == s[a..a + |r|]
      && (forall t :: 0 <= t < a ==> IsSpace(s[t]))
      && (forall t :: a + |r| <= t < |s| ==> IsSpace(s[t]))
  {
    var a := |s| - |l|;
    assert r == s[a..a + |r|];
    forall t | a + |r| <= t < |s|
      ensures IsSpace(s[t])
    {
      assert s[t] == l[t - a];
    }
  }

  /** When `t[a]` is the first non-space and `t[p]` another non-space, `strip()`
      starts at `a` and keeps `t[p]`. */
  lemma {:induction false} StripKeeps(t: string, a: nat, p: nat)
    requires a <= p < |t| && !IsSpace(t[a]) && !IsSpace(t[p])
    requires forall x :: 0 <= x < a ==> IsSpace(t[x])
    ensures a + |Strip(t)| <= |t| && |Strip(t)| > p - a && Strip(t) == t[a..a + |Strip(t)|]
  {
    var i, j := StripBounds(t);
    TrimmedSlice(t, i, j, a, p);
    SameSlice(t, i, j, a, |Strip(t)|);
  }

  lemma {:induction false} SameSlice(t: string, i: nat, j: nat, a: nat, n: nat)
    requires i == a && j == a + n && j <= |t|
    ensures t[i..j] == t[a..a + n]
  {
  }

  /** `s[i..j]` is what is left once the whitespace at both ends of `s` is
      removed. */
  predicate TrimmedBetween(s: string, i: int, j: int) {
    0 <= i <= j <= |s|
    && (forall x :: 0 <= x < i ==> IsSpace(s[x]))
    && (forall x :: j <= x < |s| ==> IsSpace(s[x]))
    && (i < j ==> !IsSpace(s[i]))
  }

  /** The bounds of the slice `strip()` returns. */
  lemma {:induction false} StripBounds(s: string) returns (i: nat, j: nat)
    ensures TrimmedBetween(s, i, j) && Strip(s) == s[i..j]
  {
    var r := Strip(s);
    i, j :| 0 <= i <= j <= |s| && r == s[i..j]
      && (forall x :: 0 <= x < i ==> IsSpace(s[x]))
      && (forall x :: j <= x < |s| ==> IsSpace(s[x]));
    if i < j {
      assert r[0] == s[i];
    }
  }

  /** The trimmed slice starts at the first non-space and reaches past every
      other non-space. */
  lemma {:induction false} TrimmedSlice(t: string, i: nat, j: nat, a: nat, p: nat)
    requires TrimmedBetween(t, i, j)
    requires a <= p < |t| && !IsSpace(t[a]) && !IsSpace(t[p])
    requires forall x :: 0 <= x < a ==> IsSpace(t[x])
    ensures i == a && p < j
  {
    if j <= p {
      assert IsSpace(t[p]);
    }
    if a < i {
      assert IsSpace(t[a]);
    }
    if i < a {
      assert IsSpace(t[i]);
    }
  }

  /** An exact occurrence of a word without upper-case letters is also a
      case-insensitive one. */
  lemma {:induction false} OccursAtIsCI(s: string, w: string, k: nat)
    requires OccursAt(s, w, k) && forall x :: 0 <= x < |w| ==> LowerChar(w[x]) == w[x]
    ensures OccursAtCI(s, w, k)
  {
    forall x | 0 <= x < |w|
      ensures Lower(s)[k + x] == w[x]
    {
      assert s[k + x] == w[x];
    }
    assert Lower(s)[k..k + |w|] == w;
  }

  /** A piece placed between two others occurs in the concatenation. */
  lemma {:induction false} ContainsMiddle(a: string, x: string, b: string)
    ensures Contains(a + x + b, x)
  {
    assert (a + x + b)[|a|..|a| + |x|] == x;
    assert OccursAt(a + x + b, x, |a|);
  }

  /** A template with two holes contains what fills each of them. */
  lemma {:induction false} ContainsTwoHoles(a: string, x: string, b: string, y: string, c: string)
    ensures Contains(a + x + b + y + c, x)
    ensures Contains(a + x + b + y + c, y)
  {
    assert a + x + b + y + c == a + x + (b + y + c);
    ContainsMiddle(a, x, b + y + c);
    ContainsMiddle(a + x + b, y, c);
  }

  /** A template with three holes contains what fills each of them. */
  lemma {:induction false} ContainsHoles(a: string, x: string, b: string, y: string, c: string, z: string, d: string)
    ensures Contains(a + x + b + y + c + z + d, x)
    ensures Contains(a + x + b + y + c + z + d, y)
    ensures Contains(a + x + b + y + c + z + d, z)
  {
    assert a + x + b + y + c + z + d == a + x + (b + y + c + z + d);
    ContainsMiddle(a, x, b + y + c + z + d);
    assert a + x + b + y + c + z + d == (a + x + b) + y + (c + z + d);
    ContainsMiddle(a + x + b, y, c + z + d);
    ContainsMiddle(a + x + b + y + c, z, d);
  }

  lemma {:induction false} ConcatStartsWith(a: string, b: string)
    ensures StartsWith(a + b, a)
  {
    assert (a + b)[..|a|] == a;
  }

  /** A slice is its first element followed by the rest, and so is anything
      the slice starts. */
  lemma {:induction false} SliceCons<T>(s: seq<T>, i: nat, k: nat, tail: seq<T>)
    requires i < k <= |s|
    ensures s[i..k] + tail == [s[i]] + (s[i + 1..k] + tail)
  {
    assert s[i..k] == [s[i]] + s[i + 1..k];
  }

  lemma {:induction false} AppendAssoc<T>(a: seq<T>, b: seq<T>, c: seq<T>)
    ensures a + b + c == a + (b + c)
  {
  }

  /** A template with one hole determines what fills it. */
  lemma {:induction false} OneHoleInjective(a: string, x: string, y: string, b: string)
    requires a + x + b == a + y + b
    ensures x == y
  {
    var s := a + x + b;
    assert |x| == |y|;
    assert x == s[|a|..|a| + |x|];
    assert y == (a + y + b)[|a|..|a| + |y|];
  }

  /** A template with two holes determines what fills them, when the first
      filling cannot hold the character that follows it. */
  lemma {:induction false} TwoHolesInjective(a: string, x1: string, x2: string, b: string,
                                            y1: string, y2: string, c: string)
    requires b != [] && b[0] !in x1 && b[0] !in x2
    requires a + x1 + b + y1 + c == a + x2 + b + y2 + c
    ensures x1 == x2 && y1 == y2
  {
    var s1, s2 := a + x1 + b + y1 + c, a + x2 + b + y2 + c;
    if |x1| < |x2| {
      assert s1[|a| + |x1|] == b[0];
      assert s2[|a| + |x1|] == x2[|x1|];
      assert false;
    }
    if |x2| < |x1| {
      assert s2[|a| + |x2|] == b[0];
      assert s1[|a| + |x2|] == x1[|x2|];
      assert false;
    }
    assert x1 == s1[|a|..|a| + |x1|];
    assert x2 == s2[|a|..|a| + |x2|];
    assert |y1| == |y2|;
    assert y1 == s1[|a| + |x1| + |b|..|a| + |x1| + |b| + |y1|];
    assert y2 == s2[|a| + |x2| + |b|..|a| + |x2| + |b| + |y2|];
  }

  /** Occurrences in a suffix are the occurrences in the whole, shifted. */
  lemma {:induction false} OccursInSuffix(s: string, w: string, d: nat, j: nat)
    requires d <= |s|
    ensures OccursAt(s[d..], w, j) <==> OccursAt(s, w, d + j)
  {
    if j + |w| <= |s| - d {
      assert s[d..][j..j + |w|] == s[d + j..d + j + |w|];
    }
  }

  /** Occurrences in a slice are occurrences in the whole, shifted. */
  lemma {:induction false} OccursInSlice(s: string, w: string, a: nat, b: nat, j: nat)
    requires a <= b <= |s| && OccursAt(s[a..b], w, j)
    ensures OccursAt(s, w, a + j)
  {
    forall x | 0 <= x < |w|
      ensures s[a + j + x] == w[x]
    {
      assert s[a..b][j..j + |w|][x] == w[x];
    }
    assert s[a + j..a + j + |w|] == w;
  }

  /** A slice of a text without `w` has no `w` either. */
  lemma {:induction false} NoOccurrenceInSlice(t: string, w: string, a: nat, b: nat)
    requires !Contains(t, w) && a <= b <= |t|
    ensures !Contains(t[a..b], w)
  {
    if Contains(t[a..b], w) {
      var j :| OccursAt(t[a..b], w, j);
      OccursInSlice(t, w, a, b, j);
    }
  }

  /** Stripping does not create an occurrence. */
  lemma {:induction false} NoOccurrenceInStrip(t: string, w: string)
    requires !Contains(t, w)
    ensures !Contains(Strip(t), w) && !Contains(RStrip(t), w)
  {
    var a, b :| 0 <= a <= b <= |t| && Strip(t) == t[a..b];
    NoOccurrenceInSlice(t, w, a, b);
    NoOccurrenceInSlice(t, w, 0, |RStrip(t)|);
  }

  /** A word with a character the text lacks does not occur in it. */
  lemma {:induction false} MissingCharNoOccurrence(s: string, w: string, i: nat)
    requires i < |w| && w[i] !in s
    ensures !Contains(s, w)
  {
  }

  /** No occurrence starts at a character other than the word's first. */
  lemma {:induction false} NoOccurrenceAtOtherChar(s: string, w: string, k: int)
    requires w != [] && 0 <= k < |s| && s[k] != w[0]
    ensures !OccursAt(s, w, k)
  {
    if k + |w| <= |s| {
      assert s[k..k + |w|][0] == s[k];
    }
  }

  /** An occurrence that spans a line break contains one. */
  lemma {:induction false} LineBreakInside(s: string, w: string, k: nat, n: nat)
    requires k <= n < k + |w| && n < |s| && s[n] == '\n'
    ensures OccursAt(s, w, k) ==> '\n' in w
  {
    if OccursAt(s, w, k) {
      assert w[n - k] == s[n];
    }
  }

  /** An occurrence inside the front part is an occurrence of the front part. */
  lemma {:induction false} OccursInFront(a: string, b: string, w: string, k: nat)
    requires k + |w| <= |a|
    ensures OccursAt(a + b, w, k) ==> OccursAt(a, w, k)
  {
    assert (a + b)[k..k + |w|] == a[k..k + |w|];
  }

  /** Joining lines that lack a word without line breaks does not create it. */
  lemma {:induction false} NoOccurrenceInJoinLines(xs: seq<string>, w: string)
    requires w != [] && '\n' !in w && forall x :: x in xs ==> !Contains(x, w)
    ensures !Contains(JoinLines(xs), w)
    decreases |xs|
  {
    if |xs| > 1 {
      assert forall x :: x in xs[1..] ==> x in xs;
      NoOccurrenceInJoinLines(xs[1..], w);
      assert xs == [xs[0]] + xs[1..] && xs[0] in xs;
      JoinCons("\n", xs[0], xs[1..]);
      NoOccurrenceAcrossBreak(xs[0], JoinLines(xs[1..]), w);
    } else if |xs| == 1 {
      assert xs[0] in xs;
    }
  }

  /** A word without a line break that is in neither of two texts is not in
      the two joined by a line break. */
  lemma {:induction false} NoOccurrenceAcrossBreak(a: string, rest: string, w: string)
    requires w != [] && '\n' !in w && !Contains(a, w) && !Contains(rest, w)
    ensures !Contains(a + "\n" + rest, w)
  {
    var s := a + "\n" + rest;
    var n := |a|;
    assert s == a + ("\n" + rest);
    assert s[n + 1..] == rest;
    forall k | 0 <= k
      ensures !OccursAt(s, w, k)
    {
      if k + |w| <= n {
        OccursInFront(a, "\n" + rest, w, k);
      } else if k > n {
        OccursInSuffix(s, w, n + 1, k - n - 1);
      } else {
        LineBreakInside(s, w, k, n);
      }
    }
  }

  /** The characterisation of `rfind` determines it. */
  lemma {:induction false} LastIndexOfUnique(s: string, w: string, m: nat)
    requires OccursAt(s, w, m) && forall j :: m < j ==> !OccursAt(s, w, j)
    ensures LastIndexOf(s, w) == Some(m)
  {
  }

  /** A case-insensitive occurrence at the head of a slice is one in the whole. */
  lemma {:induction false} OccursAtCIShift(s: string, w: string, k: nat, r: string)
    requires k + |r| <= |s| && r == s[k..k + |r|] && |w| <= |r| && OccursAtCI(s, w, k)
    ensures OccursAtCI(r, w, 0)
  {
    LowerSlice(s, k, k + |r|);
    assert Lower(r)[0..|w|] == Lower(s)[k..k + |w|];
  }

  /** A string without whitespace at either end is its own `strip()`. */
  lemma {:induction false} StripNoop(s: string)
    requires s == [] || (!IsSpace(s[0]) && !IsSpace(s[|s| - 1]))
    ensures Strip(s) == s
  {
  }

  /** Python's `s.split(sep)` for a one-character separator. */
  function Split(s: string, sep: char): (parts: seq<string>)
    ensures |parts| >= 1
    ensures forall p :: p in parts ==> sep !in p
    decreases |s|
  {
    if sep in s then
      var k := FirstIndex(s, sep);
      [s[..k]] + Split(s[k + 1..], sep)
    else [s]
  }

  function FirstIndex(s: string, c: char): (k: nat)
    requires c in s
    ensures k < |s| && s[k] == c && c !in s[..k]
  {
    if s[0] == c then 0 else 1 + FirstIndex(s[1..], c)
  }

  /** `split` at the first separator. */
  lemma {:induction false} SplitAt(s: string, sep: char, k: nat)
    requires k < |s| && s[k] == sep && sep !in s[..k]
    ensures Split(s, sep) == [s[..k]] + Split(s[k + 1..], sep)
  {
    FirstIndexAt(s, sep, k);
  }

  lemma {:induction false} FirstIndexAt(s: string, c: char, j: nat)
    requires j < |s| && s[j] == c && c !in s[..j]
    ensures FirstIndex(s, c) == j
  {
    if j > 0 {
      assert s[0] in s[..j];
      assert s[1..][..j - 1] == s[1..j];
      assert forall x :: x in s[1..j] ==> x in s[..j];
      FirstIndexAt(s[1..], c, j - 1);
    }
  }

  /** `sep.join(xs)`. */
  function Join(sep: string, xs: seq<string>): string {
    if |xs| == 0 then ""
    else if |xs| == 1 then xs[0]
    else xs[0] + sep + Join(sep, xs[1..])
  }

  /** Joining pieces without the separator and splitting again gives the pieces back. */
  lemma {:induction false} SplitJoin(xs: seq<string>, sep: char)
    requires |xs| >= 1
    requires forall x :: x in xs ==> sep !in x
    ensures Split(Join([sep], xs), sep) == xs
  {
    if |xs| > 1 {
      var s := Join([sep], xs);
      var rest := Join([sep], xs[1..]);
      assert xs == [xs[0]] + xs[1..];
      JoinCons([sep], xs[0], xs[1..]);
      assert xs[0] in xs;
      assert s[..|xs[0]|] == xs[0] && s[|xs[0]|] == sep && s[|xs[0]| + 1..] == rest;
      SplitAt(s, sep, |xs[0]|);
      assert forall x :: x in xs[1..] ==> x in xs;
      SplitJoin(xs[1..], sep);
    }
  }

  /** `sep.join([x] + ys)` for a non-empty `ys`. */
  lemma {:induction false} JoinCons(sep: string, x: string, ys: seq<string>)
    requires |ys| >= 1
    ensures Join(sep, [x] + ys) == x + sep + Join(sep, ys)
  {
    assert ([x] + ys)[0] == x && ([x] + ys)[1..] == ys;
  }

  /** Splitting and joining again gives the string back. */
  lemma {:induction false} JoinSplit(s: string, sep: char)
    ensures Join([sep], Split(s, sep)) == s
    decreases |s|
  {
    if sep in s {
      var k := FirstIndex(s, sep);
      SplitAt(s, sep, k);
      JoinSplit(s[k + 1..], sep);
      JoinCons([sep], s[..k], Split(s[k + 1..], sep));
      assert s == s[..k] + [sep] + s[k + 1..];
    }
  }

  /** `s.splitlines()`, with "\n" as the only line break: no trailing empty
      line for a final "\n", and no lines at all for "". */
  function SplitLines(s: string): (lines: seq<string>)
    ensures forall l :: l in lines ==> '\n' !in l
  {
    if s == "" then []
    else
      var parts := Split(s, '\n');
      if s[|s| - 1] == '\n' then parts[..|parts| - 1] else parts
  }

  /** `"\n".join(lines)`. */
  function JoinLines(lines: seq<string>): string {
    Join("\n", lines)
  }

  lemma {:induction false} JoinLastChar(xs: seq<string>, sep: string)
    requires |xs| >= 1 && xs[|xs| - 1] != ""
    ensures |Join(sep, xs)| > 0 && Join(sep, xs)[|Join(sep, xs)| - 1] == xs[|xs| - 1][|xs[|xs| - 1]| - 1]
  {
    if |xs| > 1 {
      JoinLastChar(xs[1..], sep);
    }
  }

  /** Lines whose last line is not empty survive a join and a split. */
  lemma {:induction false} SplitLinesJoinLines(lines: seq<string>)
    requires forall l :: l in lines ==> '\n' !in l
    requires lines == [] || lines[|lines| - 1] != ""
    ensures SplitLines(JoinLines(lines)) == lines
  {
    if lines != [] {
      JoinLastChar(lines, "\n");
      SplitJoin(lines, '\n');
      assert lines[|lines| - 1] in lines;
      assert JoinLines(lines)[|JoinLines(lines)| - 1] != '\n';
    }
  }

  /** The elements of `s` that satisfy `p`, in order (a list comprehension with a filter). */
  function Filter<T>(s: seq<T>, p: T -> bool): (r: seq<T>)
    ensures |r| <= |s|
    ensures forall x :: x in r ==> x in s && p(x)
  {
    if s == [] then []
    else if p(s[0]) then [s[0]] + Filter(s[1..], p)
    else Filter(s[1..], p)
  }

  lemma {:induction false} FilterAppend<T>(a: seq<T>, b: seq<T>, p: T -> bool)
    ensures Filter(a + b, p) == Filter(a, p) + Filter(b, p)
  {
    if a != [] {
      assert (a + b)[0] == a[0];
      assert (a + b)[1..] == a[1..] + b;
      FilterAppend(a[1..], b, p);
    } else {
      assert a + b == b;
    }
  }

  /** `xs` is obtained from `ys` by deleting elements, keeping the order. */
  predicate IsSubsequence<T(==)>(xs: seq<T>, ys: seq<T>)
    decreases |ys|
  {
    if xs == [] then true
    else if ys == [] then false
    else (xs[0] == ys[0] && IsSubsequence(xs[1..], ys[1..])) || IsSubsequence(xs, ys[1..])
  }

  lemma {:induction false} SubsequenceLength<T>(xs: seq<T>, ys: seq<T>)
    requires IsSubsequence(xs, ys)
    ensures |xs| <= |ys|
    decreases |ys|
  {
    if xs != [] {
      if xs[0] == ys[0] && IsSubsequence(xs[1..], ys[1..]) {
        SubsequenceLength(xs[1..], ys[1..]);
      } else {
        SubsequenceLength(xs, ys[1..]);
      }
    }
  }
}
