/** The two regular expressions that read `arp -a` output, as explicit
    matchers:

    - `\d+\.\d+\.\d+\.\d+`, which marks a line of the Windows table;
    - `\(([\d.]+)\)\s+at\s+([\w:]+)`, which extracts an address and a hardware
      address from a line of the BSD/Linux table.

    Both matchers take each repeated character class as far as it extends.
    The equivalence lemmas show that this is exactly what the patterns
    accept, written as plain decompositions of the text. */
module Patterns {

  import opened Wrappers
  import opened PyStr

  /** The character classes of the two patterns, ASCII only. `Word` is `\w`
      with `:` added, the class `[\w:]`. */
  datatype CharClass = Digit | DigitOrDot | Space | WordOrColon

  predicate InClass(c: char, cls: CharClass) {
    match cls
    case Digit => IsAsciiDigit(c)
    case DigitOrDot => IsAsciiDigit(c) || c == '.'
    case Space => IsSpace(c)
    case WordOrColon => IsAsciiDigit(c) || IsAsciiUpper(c) || IsAsciiLower(c) || c == '_' || c == ':'
  }

  /** One or more characters, all of class `cls`: what `[cls]+` matches. */
  predicate IsRun(w: string, cls: CharClass) {
    w != [] && forall k | 0 <= k < |w| :: InClass(w[k], cls)
  }

  /** The length of the longest run of `cls` characters in `s` from index `i`. */
  function RunLen(s: string, i: nat, cls: CharClass): (n: nat)
    requires i <= |s|
    ensures i + n <= |s|
    decreases |s| - i
  {
    if i < |s| && InClass(s[i], cls) then 1 + RunLen(s, i + 1, cls) else 0
  }

  /** The run is all of class `cls` and stops at the end of `s` or at a
      character outside the class. */
  lemma {:induction false} RunLenMaximal(s: string, i: nat, cls: CharClass)
    requires i <= |s|
    ensures forall k | i <= k < i + RunLen(s, i, cls) :: InClass(s[k], cls)
    ensures i + RunLen(s, i, cls) < |s| ==> !InClass(s[i + RunLen(s, i, cls)], cls)
    decreases |s| - i
  {
    if i < |s| && InClass(s[i], cls) {
      RunLenMaximal(s, i + 1, cls);
    }
  }

  /** A run of `m` characters of class `cls` that stops at the end of `s` or
      at a character outside the class is the longest run. */
  lemma {:induction false} RunLenExact(s: string, i: nat, cls: CharClass, m: nat)
    requires i + m <= |s|
    requires forall k | i <= k < i + m :: InClass(s[k], cls)
    requires i + m == |s| || !InClass(s[i + m], cls)
    ensures RunLen(s, i, cls) == m
    decreases m
  {
    if m > 0 {
      RunLenExact(s, i + 1, cls, m - 1);
    }
  }

  /** A run of at least `m` characters of class `cls`. */
  lemma {:induction false} RunLenAtLeast(s: string, i: nat, cls: CharClass, m: nat)
    requires i + m <= |s|
    requires forall k | i <= k < i + m :: InClass(s[k], cls)
    ensures RunLen(s, i, cls) >= m
    decreases m
  {
    if m > 0 {
      RunLenAtLeast(s, i + 1, cls, m - 1);
    }
  }

  // ---------------------------------------------------------------------
  // \d+\.\d+\.\d+\.\d+

  /** The pattern matches at index `i`: four digit runs separated by dots. Only
      the longest digit run can be followed by a dot, so each of the first
      three groups is the longest run. */
  predicate DottedQuadAt(s: string, i: nat)
    requires i <= |s|
  {
    var a := RunLen(s, i, Digit);
    var j := i + a + 1;
    a > 0 && j <= |s| && s[j - 1] == '.' &&
    var b := RunLen(s, j, Digit);
    var k := j + b + 1;
    b > 0 && k <= |s| && s[k - 1] == '.' &&
    var c := RunLen(s, k, Digit);
    var l := k + c + 1;
    c > 0 && l <= |s| && s[l - 1] == '.' &&
    RunLen(s, l, Digit) > 0
  }

  /** `re.search(r'\d+\.\d+\.\d+\.\d+', s)` finds a match. */
  predicate HasDottedQuad(s: string) {
    exists i | 0 <= i <= |s| :: DottedQuadAt(s, i)
  }

  /** `w` is four non-empty digit groups joined by dots, the dots at `p`, `q`, `r`. */
  predicate QuadLayout(w: string, p: int, q: int, r: int) {
    0 < p && p + 1 < q && q + 1 < r && r + 1 < |w|
    && w[p] == '.' && w[q] == '.' && w[r] == '.'
    && (forall k | 0 <= k < p :: IsAsciiDigit(w[k]))
    && (forall k | p < k < q :: IsAsciiDigit(w[k]))
    && (forall k | q < k < r :: IsAsciiDigit(w[k]))
    && (forall k | r < k < |w| :: IsAsciiDigit(w[k]))
  }

  /** The strings the pattern matches as a whole. */
  ghost predicate IsDottedQuad(w: string) {
    exists p, q, r :: QuadLayout(w, p, q, r)
  }

  /** The pattern as `re.search` reads it: some slice of `s` is a dotted quad. */
  ghost predicate ContainsDottedQuad(s: string) {
    exists i, j :: 0 <= i <= j <= |s| && IsDottedQuad(s[i..j])
  }

  /** The matcher finds a dotted quad exactly when some slice of the line is one. */
  lemma DottedQuadSearch(s: string)
    ensures HasDottedQuad(s) <==> ContainsDottedQuad(s)
  {
    if HasDottedQuad(s) {
      var i :| 0 <= i <= |s| && DottedQuadAt(s, i);
      DottedQuadFound(s, i);
    }
    if ContainsDottedQuad(s) {
      var i, j :| 0 <= i <= j <= |s| && IsDottedQuad(s[i..j]);
      var p, q, r :| QuadLayout(s[i..j], p, q, r);
      DottedQuadRecognised(s, i, j, p, q, r);
    }
  }

  lemma DottedQuadFound(s: string, i: nat)
    requires i <= |s| && DottedQuadAt(s, i)
    ensures ContainsDottedQuad(s)
  {
    var a := RunLen(s, i, Digit);
    var b := RunLen(s, i + a + 1, Digit);
    var c := RunLen(s, i + a + b + 2, Digit);
    var d := RunLen(s, i + a + b + c + 3, Digit);
    RunLenMaximal(s, i, Digit);
    RunLenMaximal(s, i + a + 1, Digit);
    RunLenMaximal(s, i + a + b + 2, Digit);
    RunLenMaximal(s, i + a + b + c + 3, Digit);
    var j := i + a + b + c + d + 3;
    QuadLaidOut(s, i, j, a, a + b + 1, a + b + c + 2);
  }

  /** Four digit runs with dots between them, read from `s` at `i`, make the
      slice up to `j` a dotted quad. */
  lemma QuadLaidOut(s: string, i: int, j: int, p: int, q: int, r: int)
    requires 0 <= i && 0 < p && p + 1 < q && q + 1 < r && r + 1 < j - i && j <= |s|
    requires s[i + p] == '.' && s[i + q] == '.' && s[i + r] == '.'
    requires forall k | i <= k < i + p :: InClass(s[k], Digit)
    requires forall k | i + p < k < i + q :: InClass(s[k], Digit)
    requires forall k | i + q < k < i + r :: InClass(s[k], Digit)
    requires forall k | i + r < k < j :: InClass(s[k], Digit)
    ensures QuadLayout(s[i..j], p, q, r) && IsDottedQuad(s[i..j])
  {
    var w := s[i..j];
    assert w[p] == '.' && w[q] == '.' && w[r] == '.';
    forall k | 0 <= k < |w| && k != p && k != q && k != r ensures IsAsciiDigit(w[k]) {
      assert w[k] == s[i + k];
      assert InClass(s[i + k], Digit);
    }
  }

  lemma DottedQuadRecognised(s: string, i: int, j: int, p: int, q: int, r: int)
    requires 0 <= i <= j <= |s| && QuadLayout(s[i..j], p, q, r)
    ensures DottedQuadAt(s, i)
  {
    var w := s[i..j];
    SliceInClass(s, i, j, 0, p, Digit);
    SliceInClass(s, i, j, p + 1, q, Digit);
    SliceInClass(s, i, j, q + 1, r, Digit);
    SliceInClass(s, i, j, r + 1, |w|, Digit);
    assert s[i + p] == w[p] && s[i + q] == w[q] && s[i + r] == w[r];
    RunLenExact(s, i, Digit, p);
    RunLenExact(s, i + p + 1, Digit, q - p - 1);
    RunLenExact(s, i + q + 1, Digit, r - q - 1);
    RunLenAtLeast(s, i + r + 1, Digit, |w| - r - 1);
    QuadRunsRecognised(s, i, p, q, r);
  }

  /** Three longest digit runs, each followed by a dot, and a fourth run: the
      pattern matches there. */
  lemma QuadRunsRecognised(s: string, i: nat, p: nat, q: nat, r: nat)
    requires 0 < p && p + 1 < q && q + 1 < r && i + r + 1 <= |s|
    requires s[i + p] == '.' && s[i + q] == '.' && s[i + r] == '.'
    requires RunLen(s, i, Digit) == p
    requires RunLen(s, i + p + 1, Digit) == q - p - 1
    requires RunLen(s, i + q + 1, Digit) == r - q - 1
    requires RunLen(s, i + r + 1, Digit) > 0
    ensures DottedQuadAt(s, i)
  {
  }

  /** Characters of a slice of `s` are characters of `s`. */
  lemma SliceInClass(s: string, i: int, j: int, lo: int, hi: int, cls: CharClass)
    requires 0 <= i <= j <= |s| && 0 <= lo <= hi <= j - i
    requires forall k | lo <= k < hi :: InClass(s[i..j][k], cls)
    ensures forall k | i + lo <= k < i + hi :: InClass(s[k], cls)
  {
    forall k | i + lo <= k < i + hi ensures InClass(s[k], cls) {
      assert s[k] == s[i..j][k - i];
    }
  }

  // ---------------------------------------------------------------------
  // \(([\d.]+)\)\s+at\s+([\w:]+)

  /** The two groups of a match: the address between the parentheses and the
      hardware address after "at". */
  datatype ArpFields = ArpFields(ip: string, mac: string)

  /** The pattern's match starting exactly at index `i`, if there is one. */
  function ArpFieldsAt(s: string, i: nat): Option<ArpFields>
    requires i <= |s|
  {
    if i < |s| && s[i] == '(' then
      var a := RunLen(s, i + 1, DigitOrDot);
      var j := i + 1 + a;
      if a > 0 && j < |s| && s[j] == ')' then
        var b := RunLen(s, j + 1, Space);
        var k := j + 1 + b;
        if b > 0 && k + 2 <= |s| && s[k..k + 2] == "at" then
          var c := RunLen(s, k + 2, Space);
          var m := k + 2 + c;
          var d := RunLen(s, m, WordOrColon);
          if c > 0 && d > 0 then Some(ArpFields(s[i + 1..j], s[m..m + d])) else None
        else None
      else None
    else None
  }

  /** `re.search(...)` from index `i` on: the leftmost match. */
  function SearchArpFields(s: string, i: nat): Option<ArpFields>
    requires i <= |s|
    decreases |s| - i
  {
    match ArpFieldsAt(s, i)
    case Some(f) => Some(f)
    case None => if i == |s| then None else SearchArpFields(s, i + 1)
  }

  /** The text from `i` reads: `(`, the address, `)`, `b` whitespace characters,
      `at`, `c` whitespace characters, the hardware address; and the hardware
      address is not followed by another `[\w:]` character, as the greedy
      last group takes them all. */
  predicate ArpLayout(s: string, i: int, f: ArpFields, b: int, c: int) {
    var j := i + 1 + |f.ip|;
    var k := j + 1 + b;
    var m := k + 2 + c;
    0 <= i && 0 < b && 0 < c && m + |f.mac| <= |s|
    && s[i] == '(' && s[i + 1..j] == f.ip && IsRun(f.ip, DigitOrDot) && s[j] == ')'
    && (forall n | j < n < k :: IsSpace(s[n]))
    && s[k..k + 2] == "at"
    && (forall n | k + 2 <= n < m :: IsSpace(s[n]))
    && s[m..m + |f.mac|] == f.mac && IsRun(f.mac, WordOrColon)
    && (m + |f.mac| == |s| || !InClass(s[m + |f.mac|], WordOrColon))
  }

  /** The pattern matches at `i` with groups `f`. */
  ghost predicate ArpMatchAt(s: string, i: int, f: ArpFields) {
    exists b, c :: ArpLayout(s, i, f, b, c)
  }

  /** The matcher at `i` returns exactly the groups of the pattern's match at `i`. */
  lemma ArpFieldsAtMatches(s: string, i: nat, f: ArpFields)
    requires i <= |s|
    ensures ArpFieldsAt(s, i) == Some(f) <==> ArpMatchAt(s, i, f)
  {
    if ArpFieldsAt(s, i) == Some(f) {
      ArpFieldsLaidOut(s, i);
    }
    if ArpMatchAt(s, i, f) {
      var b, c :| ArpLayout(s, i, f, b, c);
      ArpLayoutRecognised(s, i, f, b, c);
    }
  }

  /** What the matcher returns is laid out as the pattern says. */
  lemma ArpFieldsLaidOut(s: string, i: nat)
    requires i <= |s| && ArpFieldsAt(s, i).Some?
    ensures ArpMatchAt(s, i, ArpFieldsAt(s, i).value)
  {
    var j := i + 1 + RunLen(s, i + 1, DigitOrDot);
    var k := j + 1 + RunLen(s, j + 1, Space);
    var m := k + 2 + RunLen(s, k + 2, Space);
    var e := m + RunLen(s, m, WordOrColon);
    ArpFieldsAtParts(s, i, j, k, m, e);
    LongestRunsLaidOut(s, i, j, k, m, e);
  }

  /** The conditions under which the matcher returns groups, and the groups. */
  lemma ArpFieldsAtParts(s: string, i: nat, j: nat, k: nat, m: nat, e: nat)
    requires i <= |s| && ArpFieldsAt(s, i).Some?
    requires j == i + 1 + RunLen(s, i + 1, DigitOrDot) && j <= |s|
    requires k == j + 1 + RunLen(s, j + 1, Space) && k <= |s|
    requires k + 2 <= |s| ==> m == k + 2 + RunLen(s, k + 2, Space) && m <= |s|
    requires m <= |s| ==> e == m + RunLen(s, m, WordOrColon)
    ensures i + 1 < j < |s| && j + 1 < k && k + 2 < m < e <= |s|
    ensures s[i] == '(' && s[j] == ')' && s[k..k + 2] == "at"
    ensures ArpFieldsAt(s, i).value == ArpFields(s[i + 1..j], s[m..e])
  {
  }

  /** `(`, a longest run of digits and dots, `)`, a longest run of whitespace,
      `at`, a longest run of whitespace and a longest run of `[\w:]`
      characters make a laid-out match. */
  lemma LongestRunsLaidOut(s: string, i: nat, j: nat, k: nat, m: nat, e: nat)
    requires i + 1 < j < |s| && j + 1 < k && k + 2 < m < e <= |s|
    requires s[i] == '(' && s[j] == ')' && s[k..k + 2] == "at"
    requires RunLen(s, i + 1, DigitOrDot) == j - i - 1
    requires RunLen(s, j + 1, Space) == k - j - 1
    requires RunLen(s, k + 2, Space) == m - k - 2
    requires RunLen(s, m, WordOrColon) == e - m
    ensures ArpMatchAt(s, i, ArpFields(s[i + 1..j], s[m..e]))
  {
    RunBounds(s, i + 1, j - i - 1, DigitOrDot);
    RunBounds(s, j + 1, k - j - 1, Space);
    RunBounds(s, k + 2, m - k - 2, Space);
    RunBounds(s, m, e - m, WordOrColon);
    RunsLaidOut(s, i, j, k, m, e);
  }

  /** The longest run of `cls` from `lo`, of length `n`, read character by character. */
  lemma RunBounds(s: string, lo: nat, n: nat, cls: CharClass)
    requires lo <= |s| && RunLen(s, lo, cls) == n
    ensures forall k | lo <= k < lo + n :: InClass(s[k], cls)
    ensures lo + n == |s| || !InClass(s[lo + n], cls)
  {
    RunLenMaximal(s, lo, cls);
  }

  /** `(`, a run of digits and dots, `)`, whitespace, `at`, whitespace and a
      longest run of `[\w:]` characters make a laid-out match. */
  lemma RunsLaidOut(s: string, i: int, j: int, k: int, m: int, e: int)
    requires 0 <= i && i + 1 < j && j + 1 < k && k + 2 < m && m < e <= |s|
    requires s[i] == '(' && s[j] == ')' && s[k..k + 2] == "at"
    requires forall n | i + 1 <= n < j :: InClass(s[n], DigitOrDot)
    requires forall n | j + 1 <= n < k :: InClass(s[n], Space)
    requires forall n | k + 2 <= n < m :: InClass(s[n], Space)
    requires forall n | m <= n < e :: InClass(s[n], WordOrColon)
    requires e == |s| || !InClass(s[e], WordOrColon)
    ensures ArpMatchAt(s, i, ArpFields(s[i + 1..j], s[m..e]))
  {
    var f := ArpFields(s[i + 1..j], s[m..e]);
    SliceOfRun(s, i + 1, j, DigitOrDot);
    SliceOfRun(s, m, e, WordOrColon);
    assert ArpLayout(s, i, f, k - j - 1, m - k - 2);
  }

  /** A slice of a run of class `cls` is a run of class `cls`. */
  lemma SliceOfRun(s: string, lo: int, hi: int, cls: CharClass)
    requires 0 <= lo < hi <= |s|
    requires forall k | lo <= k < hi :: InClass(s[k], cls)
    ensures IsRun(s[lo..hi], cls)
  {
    forall n | 0 <= n < hi - lo ensures InClass(s[lo..hi][n], cls) {
      assert s[lo..hi][n] == s[lo + n];
    }
  }

  lemma ArpLayoutRecognised(s: string, i: nat, f: ArpFields, b: int, c: int)
    requires ArpLayout(s, i, f, b, c)
    ensures ArpFieldsAt(s, i) == Some(f)
  {
    var j := i + 1 + |f.ip|;
    var k := j + 1 + b;
    var m := k + 2 + c;
    ArpLayoutFlat(s, i, f, b, c, j, k, m);
    ArpRunsRecognised(s, i, j, k, m, f);
  }

  /** A laid-out match read as plain facts about its indices `j`, `k`, `m`. */
  lemma ArpLayoutFlat(s: string, i: nat, f: ArpFields, b: int, c: int, j: nat, k: nat, m: nat)
    requires ArpLayout(s, i, f, b, c)
    requires j == i + 1 + |f.ip| && k == j + 1 + b && m == k + 2 + c
    ensures i < j < k && k + 2 <= m && m + |f.mac| <= |s|
    ensures s[i] == '(' && s[j] == ')' && s[k..k + 2] == "at"
    ensures s[i + 1..j] == f.ip && s[m..m + |f.mac|] == f.mac && |f.ip| > 0 && |f.mac| > 0
    ensures RunLen(s, i + 1, DigitOrDot) == j - i - 1
    ensures RunLen(s, j + 1, Space) == k - j - 1 > 0
    ensures RunLen(s, k + 2, Space) == m - k - 2 > 0
    ensures RunLen(s, m, WordOrColon) == |f.mac|
  {
    ArpLayoutRuns(s, i, f, b, c);
    assert j + 1 == i + 2 + |f.ip| && k + 2 == i + 4 + |f.ip| + b && m == i + 4 + |f.ip| + b + c;
  }

  /** The runs of a laid-out match are the longest runs. */
  lemma ArpLayoutRuns(s: string, i: nat, f: ArpFields, b: int, c: int)
    requires ArpLayout(s, i, f, b, c)
    ensures RunLen(s, i + 1, DigitOrDot) == |f.ip|
    ensures RunLen(s, i + 2 + |f.ip|, Space) == b
    ensures RunLen(s, i + 4 + |f.ip| + b, Space) == c
    ensures RunLen(s, i + 4 + |f.ip| + b + c, WordOrColon) == |f.mac|
  {
    ArpLayoutIpRun(s, i, f, b, c);
    ArpLayoutSpaceRuns(s, i, f, b, c);
    ArpLayoutMacRun(s, i, f, b, c);
  }

  lemma ArpLayoutIpRun(s: string, i: nat, f: ArpFields, b: int, c: int)
    requires ArpLayout(s, i, f, b, c)
    ensures RunLen(s, i + 1, DigitOrDot) == |f.ip|
  {
    var j := i + 1 + |f.ip|;
    RunWithin(s, i + 1, f.ip, DigitOrDot);
    assert !InClass(s[j], DigitOrDot);
    RunLenExact(s, i + 1, DigitOrDot, |f.ip|);
  }

  lemma ArpLayoutSpaceRuns(s: string, i: nat, f: ArpFields, b: int, c: int)
    requires ArpLayout(s, i, f, b, c)
    ensures RunLen(s, i + 2 + |f.ip|, Space) == b
    ensures RunLen(s, i + 4 + |f.ip| + b, Space) == c
  {
    var j := i + 1 + |f.ip|;
    var k := j + 1 + b;
    var m := k + 2 + c;
    assert s[k] == s[k..k + 2][0] == 'a';
    RunLenExact(s, j + 1, Space, b);
    assert s[m..m + |f.mac|] == f.mac;
    assert s[m] == f.mac[0];
    RunLenExact(s, k + 2, Space, c);
  }

  lemma ArpLayoutMacRun(s: string, i: nat, f: ArpFields, b: int, c: int)
    requires ArpLayout(s, i, f, b, c)
    ensures RunLen(s, i + 4 + |f.ip| + b + c, WordOrColon) == |f.mac|
  {
    var j := i + 1 + |f.ip|;
    var k := j + 1 + b;
    var m := k + 2 + c;
    assert m + |f.mac| == |s| || !InClass(s[m + |f.mac|], WordOrColon);
    RunWithin(s, m, f.mac, WordOrColon);
    RunLenExact(s, m, WordOrColon, |f.mac|);
  }

  /** A run `w` found in `s` at `lo` is a run of `s`'s own characters. */
  lemma RunWithin(s: string, lo: int, w: string, cls: CharClass)
    requires 0 <= lo && lo + |w| <= |s| && s[lo..lo + |w|] == w && IsRun(w, cls)
    ensures forall n | lo <= n < lo + |w| :: InClass(s[n], cls)
  {
    forall n | lo <= n < lo + |w| ensures InClass(s[n], cls) {
      assert s[n] == w[n - lo];
    }
  }

  lemma ArpRunsRecognised(s: string, i: nat, j: nat, k: nat, m: nat, f: ArpFields)
    requires i < j < k && k + 2 <= m && m + |f.mac| <= |s|
    requires s[i] == '(' && s[j] == ')' && s[k..k + 2] == "at"
    requires s[i + 1..j] == f.ip && s[m..m + |f.mac|] == f.mac && |f.ip| > 0 && |f.mac| > 0
    requires RunLen(s, i + 1, DigitOrDot) == j - i - 1
    requires RunLen(s, j + 1, Space) == k - j - 1 > 0
    requires RunLen(s, k + 2, Space) == m - k - 2 > 0
    requires RunLen(s, m, WordOrColon) == |f.mac|
    ensures ArpFieldsAt(s, i) == Some(f)
  {
  }

  /** The matcher finds nothing at any index from `lo` up to `hi`. */
  predicate NoArpFieldsIn(s: string, lo: nat, hi: nat)
    requires hi <= |s| + 1
  {
    forall n | lo <= n < hi :: ArpFieldsAt(s, n).None?
  }

  /** The search returns the match at the leftmost index where there is one,
      and nothing when there is none. */
  lemma {:induction false} SearchArpFieldsLeftmost(s: string, i: nat)
    requires i <= |s|
    ensures SearchArpFields(s, i).Some? ==>
      exists n | i <= n <= |s| :: ArpFieldsAt(s, n) == SearchArpFields(s, i) && NoArpFieldsIn(s, i, n)
    ensures SearchArpFields(s, i).None? ==> NoArpFieldsIn(s, i, |s| + 1)
    decreases |s| - i
  {
    var here := ArpFieldsAt(s, i);
    if here.Some? {
      assert here == SearchArpFields(s, i) && NoArpFieldsIn(s, i, i);
    } else if i == |s| {
      assert SearchArpFields(s, i).None?;
    } else {
      var found := SearchArpFields(s, i + 1);
      assert SearchArpFields(s, i) == found;
      SearchArpFieldsLeftmost(s, i + 1);
      if found.Some? {
        var n :| i + 1 <= n <= |s| && ArpFieldsAt(s, n) == found && NoArpFieldsIn(s, i + 1, n);
        NoArpFieldsBefore(s, i, n);
      } else {
        NoArpFieldsBefore(s, i, |s| + 1);
      }
    }
  }

  lemma NoArpFieldsBefore(s: string, i: nat, hi: nat)
    requires i < hi <= |s| + 1 && ArpFieldsAt(s, i).None? && NoArpFieldsIn(s, i + 1, hi)
    ensures NoArpFieldsIn(s, i, hi)
  {
  }
}
