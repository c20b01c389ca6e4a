/** The Python `str` operations that the scanners apply to command output,
    on Dafny strings (`seq<char>`): splitting, stripping, searching, case
    mapping and joining. */
module PyStr {

  import opened Wrappers

  /** CPython's Py_UNICODE_ISSPACE: the characters that `str.strip()`,
      `str.split()` and the regular-expression class `\s` treat as whitespace. */
  predicate IsSpace(c: char) {
    var n := c as int;
    (0x09 <= n <= 0x0D) || (0x1C <= n <= 0x20) || n == 0x85 || n == 0xA0
    || n == 0x1680 || (0x2000 <= n <= 0x200A) || n == 0x2028 || n == 0x2029
    || n == 0x202F || n == 0x205F || n == 0x3000
  }

  predicate IsAsciiDigit(c: char) { '0' <= c <= '9' }

  predicate IsAsciiUpper(c: char) { 'A' <= c <= 'Z' }

  predicate IsAsciiLower(c: char) { 'a' <= c <= 'z' }

  // ---------------------------------------------------------------------
  // Searching

  /** `s.startswith(prefix)` */
  predicate StartsWith(s: string, prefix: string) {
    |prefix| <= |s| && s[..|prefix|] == prefix
  }

  /** `sub` occurs in `s` starting at index `i`. */
  predicate OccursAt(s: string, sub: string, i: int) {
    0 <= i && i + |sub| <= |s| && s[i..i + |sub|] == sub
  }

  /** `sub in s` */
  predicate Contains(s: string, sub: string) {
    exists i | 0 <= i <= |s| - |sub| :: OccursAt(s, sub, i)
  }

  /** The index of the first `c` in `s`, or `|s|` when `c` does not occur. */
  function IndexOf(s: string, c: char): (n: nat)
    ensures n <= |s|
    ensures forall k | 0 <= k < n :: s[k] != c
    ensures n < |s| ==> s[n] == c
  {
    if s == [] || s[0] == c then 0 else 1 + IndexOf(s[1..], c)
  }

  /** A string that starts with `prefix` contains it. */
  lemma StartsWithContains(s: string, prefix: string)
    requires StartsWith(s, prefix)
    ensures Contains(s, prefix)
  {
    assert OccursAt(s, prefix, 0);
  }

  /** A string that contains `t + u` contains `t`: "wpa2" in s implies "wpa" in s. */
  lemma ContainsPrefixOf(s: string, t: string, u: string)
    requires Contains(s, t + u)
    ensures Contains(s, t)
  {
    var i :| 0 <= i <= |s| - |t + u| && OccursAt(s, t + u, i);
    assert s[i..i + |t|] == (t + u)[..|t|] == t;
    assert OccursAt(s, t, i);
  }

  /** Every character of a string that `s` contains occurs in `s`. */
  lemma ContainsChar(s: string, sub: string, k: nat)
    requires Contains(s, sub) && k < |sub|
    ensures sub[k] in s
  {
    var i :| 0 <= i <= |s| - |sub| && OccursAt(s, sub, i);
    assert s[i..i + |sub|][k] == s[i + k];
  }

  // ---------------------------------------------------------------------
  // Splitting on a separator character

  /** An occurrence shown character by character. */
  lemma OccursByChars(s: string, sub: string, i: nat)
    requires i + |sub| <= |s|
    requires forall k | 0 <= k < |sub| :: s[i + k] == sub[k]
    ensures OccursAt(s, sub, i)
  {
    assert s[i..i + |sub|] == sub;
  }

  /** A text in which two neighbouring characters of `sub`, at `a` and `a + 1`,
      never stand side by side does not contain `sub`. */
  lemma NotContainsPair(s: string, sub: string, a: nat)
    requires a + 1 < |sub|
    requires forall i | 0 <= i < |s| - 1 :: !(s[i] == sub[a] && s[i + 1] == sub[a + 1])
    ensures !Contains(s, sub)
  {
    forall i | 0 <= i <= |s| - |sub| ensures !OccursAt(s, sub, i) {
      assert s[i + a] != sub[a] || s[i + a + 1] != sub[a + 1];
      assert s[i..i + |sub|][a] == s[i + a] && s[i..i + |sub|][a + 1] == s[i + a + 1];
    }
  }

  /** `s.split(sep)` for a one-character separator: the pieces between the
      separators, in order; a string without `sep` is one piece. */
  function Split(s: string, sep: char): (parts: seq<string>)
    ensures |parts| >= 1
    ensures forall k | 0 <= k < |parts| :: sep !in parts[k]
    decreases |s|
  {
    var n := IndexOf(s, sep);
    if n == |s| then [s] else [s[..n]] + Split(s[n + 1..], sep)
  }

  /** `sep.join(parts)` */
  function Join(parts: seq<string>, sep: string): string {
    if |parts| == 0 then ""
    else if |parts| == 1 then parts[0]
    else parts[0] + sep + Join(parts[1..], sep)
  }

  lemma JoinCons(parts: seq<string>, sep: string)
    requires |parts| >= 2
    ensures Join(parts, sep) == parts[0] + sep + Join(parts[1..], sep)
  {
  }

  /** Joining the pieces of a split with the separator gives back the string. */
  lemma {:induction false} JoinSplit(s: string, sep: char)
    ensures Join(Split(s, sep), [sep]) == s
    decreases |s|
  {
    var n := IndexOf(s, sep);
    if n == |s| {
      assert s[..n] == s;
    } else {
      var head, tail := s[..n], s[n + 1..];
      var rest := Split(tail, sep);
      var parts := [head] + rest;
      assert Split(s, sep) == parts;
      JoinSplit(tail, sep);
      JoinCons(parts, [sep]);
      assert parts[0] == head && parts[1..] == rest;
      assert s == head + [sep] + tail;
    }
  }

  /** Splitting pieces that do not contain the separator, once joined with it,
      gives back the pieces. */
  lemma {:induction false} SplitJoin(parts: seq<string>, sep: char)
    requires |parts| >= 1
    requires forall k | 0 <= k < |parts| :: sep !in parts[k]
    ensures Split(Join(parts, [sep]), sep) == parts
    decreases |parts|
  {
    if |parts| == 1 {
      assert IndexOf(parts[0], sep) == |parts[0]|;
    } else {
      assert Join(parts, [sep]) == parts[0] + [sep] + Join(parts[1..], [sep]);
      SplitFirst(parts[0], sep, Join(parts[1..], [sep]));
      assert forall k | 0 <= k < |parts[1..]| :: parts[1..][k] == parts[k + 1];
      SplitJoin(parts[1..], sep);
    }
  }

  /** A first piece without the separator splits off on its own. */
  lemma SplitFirst(head: string, sep: char, rest: string)
    requires sep !in head
    ensures Split(head + [sep] + rest, sep) == [head] + Split(rest, sep)
  {
    var s := head + [sep] + rest;
    IndexOfAfter(head, sep, rest);
    assert s[..|head|] == head;
    assert s[|head| + 1..] == rest;
  }

  lemma {:induction false} IndexOfAfter(head: string, sep: char, rest: string)
    requires sep !in head
    ensures IndexOf(head + [sep] + rest, sep) == |head|
    decreases |head|
  {
    if head != [] {
      IndexOfAfter(head[1..], sep, rest);
      assert (head + [sep] + rest)[1..] == head[1..] + [sep] + rest;
    }
  }

  /** `s.split(sep, 1)[1]`: the text after the first `sep`; None where Python
      raises IndexError because `sep` does not occur. */
  function AfterFirst(s: string, sep: char): Option<string> {
    var n := IndexOf(s, sep);
    if n == |s| then None else Some(s[n + 1..])
  }

  /** `str(e)` of the IndexError raised by indexing past the end of a list. */
  const INDEX_ERROR := "list index out of range"

  /** The value of a "key : value" line, `line.split(":", 1)[1].strip()`;
      None where Python raises IndexError because the line has no ':'. */
  function FieldValue(line: string): Option<string> {
    match AfterFirst(line, ':')
    case None => None
    case Some(v) => Some(Strip(v))
  }

  /** The text after the first separator is what follows a separator-free prefix;
      and there is such a text exactly when the separator occurs. */
  lemma AfterFirstOf(head: string, sep: char, value: string)
    requires sep !in head
    ensures AfterFirst(head + [sep] + value, sep) == Some(value)
  {
    IndexOfAfter(head, sep, value);
    assert (head + [sep] + value)[|head| + 1..] == value;
  }

  lemma AfterFirstPresent(s: string, sep: char)
    ensures AfterFirst(s, sep).Some? <==> sep in s
  {
    var n := IndexOf(s, sep);
    if sep in s {
      var k :| 0 <= k < |s| && s[k] == sep;
      assert n <= k;
    }
  }

  /** `s.split(sep)[-1]`: the text after the last `sep`, or all of `s`. */
  function AfterLast(s: string, sep: char): string {
    var parts := Split(s, sep);
    parts[|parts| - 1]
  }

  /** The text after the last separator is the separator-free tail. */
  lemma {:induction false} AfterLastOf(head: string, sep: char, value: string)
    requires sep !in value
    ensures AfterLast(head + [sep] + value, sep) == value
    decreases |head|
  {
    var s := head + [sep] + value;
    var n := IndexOf(s, sep);
    assert s[|head|] == sep;
    if n == |head| {
      assert s[n + 1..] == value;
      assert IndexOf(value, sep) == |value|;
      assert Split(value, sep) == [value];
      assert Split(s, sep) == [s[..n]] + [value];
    } else {
      assert n < |head|;
      var head' := head[n + 1..];
      assert s[n + 1..] == head' + [sep] + value;
      AfterLastOf(head', sep, value);
    }
  }

  // ---------------------------------------------------------------------
  // Stripping and splitting on whitespace

  function LStrip(s: string): string
    decreases |s|
  {
    if s != [] && IsSpace(s[0]) then LStrip(s[1..]) else s
  }

  function RStrip(s: string): string
    decreases |s|
  {
    if s != [] && IsSpace(s[|s| - 1]) then RStrip(s[..|s| - 1]) else s
  }

  /** Stripping keeps only characters of the text. */
  lemma StripKeepsChars(s: string, c: char)
    ensures c in Strip(s) ==> c in s
  {
    RStripKeepsChars(LStrip(s), c);
    LStripKeepsChars(s, c);
  }

  lemma {:induction false} LStripKeepsChars(s: string, c: char)
    ensures c in LStrip(s) ==> c in s
    decreases |s|
  {
    if s != [] && IsSpace(s[0]) {
      LStripKeepsChars(s[1..], c);
    }
  }

  lemma {:induction false} RStripKeepsChars(s: string, c: char)
    ensures c in RStrip(s) ==> c in s
    decreases |s|
  {
    if s != [] && IsSpace(s[|s| - 1]) {
      RStripKeepsChars(s[..|s| - 1], c);
    }
  }

  /** `s.strip()` */
  function Strip(s: string): string {
    RStrip(LStrip(s))
  }

  lemma {:induction false} LStripAllSpace(s: string)
    ensures LStrip(s) == [] <==> forall k | 0 <= k < |s| :: IsSpace(s[k])
    ensures LStrip(s) == [] || !IsSpace(LStrip(s)[0])
    decreases |s|
  {
    if s != [] && IsSpace(s[0]) {
      LStripAllSpace(s[1..]);
      assert forall k | 1 <= k < |s| :: s[k] == s[1..][k - 1];
    }
  }

  lemma {:induction false} RStripAllSpace(s: string)
    ensures RStrip(s) == [] <==> forall k | 0 <= k < |s| :: IsSpace(s[k])
    ensures RStrip(s) == [] || (!IsSpace(RStrip(s)[|RStrip(s)| - 1]) && RStrip(s)[0] == s[0])
    decreases |s|
  {
    if s != [] && IsSpace(s[|s| - 1]) {
      RStripAllSpace(s[..|s| - 1]);
    }
  }

  /** Text made only of whitespace. */
  predicate AllSpace(s: string) {
    forall k | 0 <= k < |s| :: IsSpace(s[k])
  }

  /** `s.strip()` is the middle slice of `s` left once whitespace is removed
      from both ends: it is empty exactly when `s` is all whitespace, and
      otherwise it neither starts nor ends with whitespace. */
  lemma StripTrimmed(s: string)
    ensures Strip(s) == [] <==> forall k | 0 <= k < |s| :: IsSpace(s[k])
    ensures Strip(s) != [] ==> !IsSpace(Strip(s)[0]) && !IsSpace(Strip(s)[|Strip(s)| - 1])
    ensures exists i, j | 0 <= i <= j <= |s| :: Strip(s) == s[i..j] && AllSpace(s[..i]) && AllSpace(s[j..])
  {
    LStripAllSpace(s);
    RStripAllSpace(LStrip(s));
    var i := LStripDrops(s);
    var t := s[i..];
    var j := RStripDrops(t);
    assert Strip(s) == s[i..i + j];
    assert s[i + j..] == t[j..];
  }

  /** `lstrip()` drops a whitespace prefix. */
  lemma {:induction false} LStripDrops(s: string) returns (i: nat)
    ensures i <= |s| && LStrip(s) == s[i..] && AllSpace(s[..i])
    decreases |s|
  {
    if s != [] && IsSpace(s[0]) {
      var i' := LStripDrops(s[1..]);
      i := i' + 1;
      assert s[1..][i'..] == s[i..];
      forall k | 0 <= k < i ensures IsSpace(s[k]) {
        if k > 0 {
          assert s[k] == s[1..][..i'][k - 1];
        }
      }
    } else {
      i := 0;
    }
  }

  /** `rstrip()` drops a whitespace suffix. */
  lemma {:induction false} RStripDrops(s: string) returns (j: nat)
    ensures j <= |s| && RStrip(s) == s[..j] && AllSpace(s[j..])
    decreases |s|
  {
    if s != [] && IsSpace(s[|s| - 1]) {
      var t := s[..|s| - 1];
      j := RStripDrops(t);
      assert t[..j] == s[..j];
      forall k | j <= k < |s| ensures IsSpace(s[k]) {
        if k < |s| - 1 {
          assert s[k] == t[j..][k - j];
        }
      }
    } else {
      j := |s|;
    }
  }

  /** A token of `s.split()`: non-empty and free of whitespace. */
  predicate IsToken(w: string) {
    w != [] && forall k | 0 <= k < |w| :: !IsSpace(w[k])
  }

  /** The length of the longest whitespace-free prefix of `s`. */
  function TokenLen(s: string): (n: nat)
    ensures n <= |s|
    ensures forall k | 0 <= k < n :: !IsSpace(s[k])
    ensures n < |s| ==> IsSpace(s[n])
  {
    if s == [] || IsSpace(s[0]) then 0 else 1 + TokenLen(s[1..])
  }

  /** `s.split()`: the maximal runs of non-whitespace characters, in order. */
  function Words(s: string): (ws: seq<string>)
    ensures forall k | 0 <= k < |ws| :: IsToken(ws[k])
    decreases |s|
  {
    if s == [] then []
    else if IsSpace(s[0]) then Words(s[1..])
    else
      var n := TokenLen(s);
      [s[..n]] + Words(s[n..])
  }

  /** `s.split()` finds nothing exactly when `s` is all whitespace. */
  lemma {:induction false} WordsEmpty(s: string)
    ensures Words(s) == [] <==> forall k | 0 <= k < |s| :: IsSpace(s[k])
    decreases |s|
  {
    if s != [] && IsSpace(s[0]) {
      WordsEmpty(s[1..]);
      assert forall k | 1 <= k < |s| :: s[k] == s[1..][k - 1];
    }
  }

  /** Leading whitespace is skipped: `(sp + s).split() == s.split()`. */
  lemma {:induction false} WordsSkipsSpace(sp: string, s: string)
    requires AllSpace(sp)
    ensures Words(sp + s) == Words(s)
    decreases |sp|
  {
    if sp != [] {
      assert (sp + s)[1..] == sp[1..] + s;
      WordsSkipsSpace(sp[1..], s);
    } else {
      assert sp + s == s;
    }
  }

  /** A token followed by any non-empty run of whitespace splits off as the
      first word, and the rest of the text is split on its own. */
  lemma TokenThenGap(w: string, sp: string, rest: string)
    requires IsToken(w) && sp != [] && AllSpace(sp)
    ensures Words(w + sp + rest) == [w] + Words(rest)
  {
    assert w + sp + rest == w + (sp + rest);
    TokenThenBreak(w, sp + rest);
    WordsSkipsSpace(sp, rest);
  }

  /** A token ends where the text ends or whitespace starts. */
  lemma TokenThenBreak(w: string, rest: string)
    requires IsToken(w) && (rest == [] || IsSpace(rest[0]))
    ensures Words(w + rest) == [w] + Words(rest)
  {
    var s := w + rest;
    TokenLenOf(w, rest);
    assert s[..|w|] == w;
    assert s[|w|..] == rest;
  }

  /** The text `gaps[0] + ws[0] + gaps[1] + ... + ws[n - 1] + gaps[n]`. */
  function Padded(ws: seq<string>, gaps: seq<string>): string
    requires |gaps| == |ws| + 1
    decreases |ws|
  {
    if ws == [] then gaps[0] else gaps[0] + ws[0] + Padded(ws[1..], gaps[1..])
  }

  /** `s.split()` of tokens laid out with whitespace around and between them
      (at least one whitespace character between two tokens) gives the tokens
      back, whatever the amount of whitespace. */
  lemma {:induction false} WordsPadded(ws: seq<string>, gaps: seq<string>)
    requires |gaps| == |ws| + 1
    requires forall k | 0 <= k < |ws| :: IsToken(ws[k])
    requires forall k | 0 <= k < |gaps| :: AllSpace(gaps[k])
    requires forall k | 0 < k < |ws| :: gaps[k] != []
    ensures Words(Padded(ws, gaps)) == ws
    decreases |ws|
  {
    if ws == [] {
      WordsEmpty(gaps[0]);
    } else {
      var rest := PaddedTail(ws, gaps);
      WordsPadded(ws[1..], gaps[1..]);
      WordsSkipsSpace(gaps[0], ws[0] + rest);
      TokenThenBreak(ws[0], rest);
    }
  }

  /** The text after the first gap and word starts with the next gap. */
  lemma PaddedTail(ws: seq<string>, gaps: seq<string>) returns (rest: string)
    requires |gaps| == |ws| + 1 && ws != []
    requires forall k | 0 <= k < |gaps| :: AllSpace(gaps[k])
    requires forall k | 0 < k < |ws| :: gaps[k] != []
    ensures rest == Padded(ws[1..], gaps[1..])
    ensures Padded(ws, gaps) == gaps[0] + (ws[0] + rest)
    ensures rest == [] || IsSpace(rest[0])
  {
    rest := Padded(ws[1..], gaps[1..]);
    if |ws| > 1 {
      assert rest == gaps[1] + (ws[1] + Padded(ws[2..], gaps[2..]));
      assert AllSpace(gaps[1]) && gaps[1] != [];
    } else {
      assert AllSpace(gaps[1]);
    }
  }

  /** Each of the tokens occurs in the padded text. */
  lemma {:induction false} PaddedContains(ws: seq<string>, gaps: seq<string>, k: nat)
    requires |gaps| == |ws| + 1 && k < |ws|
    ensures Contains(Padded(ws, gaps), ws[k])
    decreases k
  {
    var rest := Padded(ws[1..], gaps[1..]);
    var s := Padded(ws, gaps);
    var lead := gaps[0] + ws[0];
    assert s == lead + rest;
    if k == 0 {
      assert s[|gaps[0]|..|gaps[0]| + |ws[0]|] == ws[0];
      assert OccursAt(s, ws[0], |gaps[0]|);
    } else {
      PaddedContains(ws[1..], gaps[1..], k - 1);
      var i :| 0 <= i <= |rest| - |ws[k]| && OccursAt(rest, ws[k], i);
      assert s[|lead| + i..|lead| + i + |ws[k]|] == rest[i..i + |ws[k]|];
      assert OccursAt(s, ws[k], |lead| + i);
    }
  }

  /** The first word of `s.split()` is a slice of `s`. */
  lemma {:induction false} FirstWordAt(s: string) returns (i: nat)
    requires Words(s) != []
    ensures i + |Words(s)[0]| <= |s| && s[i..i + |Words(s)[0]|] == Words(s)[0]
    decreases |s|
  {
    if IsSpace(s[0]) {
      var i' := FirstWordAt(s[1..]);
      i := i' + 1;
      assert s[1..][i'..i' + |Words(s)[0]|] == s[i..i + |Words(s)[0]|];
    } else {
      i := 0;
    }
  }

  /** A token followed by a space and more text splits off as the first word. */
  lemma TokenThenSpace(w: string, rest: string)
    requires IsToken(w)
    ensures Words(w + " " + rest) == [w] + Words(rest)
  {
    var s := w + " " + rest;
    TokenLenOf(w, " " + rest);
    assert s[..|w|] == w;
    assert s[|w|..] == " " + rest;
    assert (" " + rest)[1..] == rest;
  }

  lemma {:induction false} TokenLenOf(w: string, rest: string)
    requires forall k | 0 <= k < |w| :: !IsSpace(w[k])
    requires rest == [] || IsSpace(rest[0])
    ensures TokenLen(w + rest) == |w|
    decreases |w|
  {
    if w != [] {
      assert (w + rest)[1..] == w[1..] + rest;
      TokenLenOf(w[1..], rest);
    } else {
      assert w + rest == rest;
    }
  }

  /** Splitting tokens joined by single spaces gives back the tokens:
      `" ".join(ws).split() == ws`. */
  lemma {:induction false} WordsJoin(ws: seq<string>)
    requires forall k | 0 <= k < |ws| :: IsToken(ws[k])
    ensures Words(Join(ws, " ")) == ws
    decreases |ws|
  {
    if |ws| == 1 {
      TokenLenOf(ws[0], []);
      assert ws[0] + [] == ws[0];
      assert ws[0][..|ws[0]|] == ws[0];
      assert ws[0][|ws[0]|..] == [];
    } else if |ws| > 1 {
      WordsJoin(ws[1..]);
      TokenThenSpace(ws[0], Join(ws[1..], " "));
    }
  }

  // ---------------------------------------------------------------------
  // Case mapping and character replacement

  /** `c.lower()` on ASCII letters; other characters are kept. */
  function LowerChar(c: char): char {
    if IsAsciiUpper(c) then (c as int + 32) as char else c
  }

  /** `c.upper()` on ASCII letters; other characters are kept. */
  function UpperChar(c: char): char {
    if IsAsciiLower(c) then (c as int - 32) as char else c
  }

  /** `s.lower()` */
  function Lower(s: string): (r: string)
    ensures |r| == |s|
  {
    seq(|s|, i requires 0 <= i < |s| => LowerChar(s[i]))
  }

  /** `s.upper()` */
  function Upper(s: string): (r: string)
    ensures |r| == |s|
  {
    seq(|s|, i requires 0 <= i < |s| => UpperChar(s[i]))
  }

  /** `s.replace(old, new)` for one-character `old` and `new`. */
  function ReplaceChar(s: string, from: char, to: char): (r: string)
    ensures |r| == |s|
  {
    seq(|s|, i requires 0 <= i < |s| => if s[i] == from then to else s[i])
  }

  /** Lower-casing ignores the case of its input: `s.upper().lower() == s.lower()`,
      and lower-casing twice changes nothing more. */
  lemma LowerIgnoresCase(s: string)
    ensures Lower(Upper(s)) == Lower(s)
    ensures Lower(Lower(s)) == Lower(s)
  {
  }

  /** An upper-cased string holds no ASCII lower-case letter. */
  lemma UpperHasNoLower(s: string)
    ensures forall k | 0 <= k < |Upper(s)| :: !IsAsciiLower(Upper(s)[k])
  {
  }
}
