/** The few string operations of Python's library the modelled code relies on. */
module Text {

  // ---- str(n) ----

  function Digit(d: nat): char
    requires d < 10
  {
    '0' + d as char
  }

  /** Decimal form of a natural number. */
  function Decimal(n: nat): (s: string)
    ensures s != []
  {
    if n < 10 then [Digit(n)] else Decimal(n / 10) + [Digit(n % 10)]
  }

  lemma {:induction false} DecimalInjective(m: nat, n: nat)
    requires Decimal(m) == Decimal(n)
    ensures m == n
  {
    var s := Decimal(m);
    assert s[|s| - 1] == Digit(m % 10) == Digit(n % 10);
    if m >= 10 && n >= 10 {
      assert s[..|s| - 1] == Decimal(m / 10) == Decimal(n / 10);
      DecimalInjective(m / 10, n / 10);
    }
  }

  // ---- whitespace ----

  /** `str.isspace`, which is also what `str.strip` removes and `\s` matches. */
  predicate IsSpace(c: char) {
    || '\t' <= c <= '\r'
    || '\U{1C}' <= c <= ' '
    || c == '\U{85}' || c == '\U{A0}' || c == '\U{1680}'
    || '\U{2000}' <= c <= '\U{200A}'
    || c == '\U{2028}' || c == '\U{2029}' || c == '\U{202F}' || c == '\U{205F}' || c == '\U{3000}'
  }

  function LStrip(s: string): string {
    if s != [] && IsSpace(s[0]) then LStrip(s[1..]) else s
  }

  function RStrip(s: string): string {
    if s != [] && IsSpace(s[|s| - 1]) then RStrip(s[..|s| - 1]) else s
  }

  function Strip(s: string): string {
    RStrip(LStrip(s))
  }

  /** `s.replace("\\", "/")`. */
  function ForwardSlashes(s: string): (r: string)
    ensures |r| == |s| && forall i :: 0 <= i < |r| ==> r[i] == if s[i] == '\\' then '/' else s[i]
  {
    seq(|s|, i requires 0 <= i < |s| => if s[i] == '\\' then '/' else s[i])
  }

  /** `str.lower`, for ASCII letters. */
  function LowerChar(c: char): char {
    if 'A' <= c <= 'Z' then c - 'A' + 'a' else c
  }

  function Lower(s: string): (r: string)
    ensures |r| == |s| && forall i :: 0 <= i < |r| ==> r[i] == LowerChar(s[i])
  {
    seq(|s|, i requires 0 <= i < |s| => LowerChar(s[i]))
  }

  /** The first number from `n` on that satisfies `p`, or `end`. */
  function FirstFrom(p: nat -> bool, n: nat, end: nat): (r: nat)
    requires n <= end
    ensures n <= r <= end && (r < end ==> p(r)) && forall k :: n <= k < r ==> !p(k)
    decreases end - n
  {
    if n == end || p(n) then n else FirstFrom(p, n + 1, end)
  }

  // ---- maximal runs ----

  /** The maximal runs of characters satisfying `p`: what `re.findall` gives for a class, and
      `re.split` for the complement without the empty ends. */
  function Words(s: string, p: char -> bool): (r: seq<string>)
    ensures s != [] && p(s[|s| - 1]) ==> r != []
    ensures forall i :: 0 <= i < |r| ==> r[i] != []
  {
    if s == [] then []
    else
      var k := |s| - 1;
      var before := Words(s[..k], p);
      if !p(s[k]) then before
      else if k > 0 && p(s[k - 1]) then before[..|before| - 1] + [before[|before| - 1] + [s[k]]]
      else before + [[s[k]]]
  }

  ghost predicate AllOf(s: string, p: char -> bool) {
    forall i :: 0 <= i < |s| ==> p(s[i])
  }

  lemma {:induction false} WordsAreWithin(s: string, p: char -> bool, q: char -> bool)
    requires AllOf(s, q)
    ensures forall i :: 0 <= i < |Words(s, p)| ==> AllOf(Words(s, p)[i], p) && AllOf(Words(s, p)[i], q)
  {
    if s != [] { WordsAreWithin(s[..|s| - 1], p, q); }
  }

  /** Appending a word after a gap adds that word. */
  lemma {:induction false} WordAfterGap(s: string, w: string, p: char -> bool)
    requires w != [] && AllOf(w, p) && (s == [] || !p(s[|s| - 1]))
    ensures Words(s + w, p) == Words(s, p) + [w]
  {
    hide Words;
    var k := |w| - 1;
    if k == 0 {
      assert w == [w[0]];
      NewWord(s, w[0], p);
    } else {
      WordAfterGap(s, w[..k], p);
      var t := s + w[..k];
      assert t[|t| - 1] == w[k - 1];
      LongerWord(t, w[k], p, Words(s, p), w[..k]);
      assert w[..k] + [w[k]] == w && t + [w[k]] == s + w;
    }
  }

  lemma NewWord(s: string, c: char, p: char -> bool)
    requires p(c) && (s == [] || !p(s[|s| - 1]))
    ensures Words(s + [c], p) == Words(s, p) + [[c]]
  {
    assert (s + [c])[..|s|] == s;
  }

  lemma LongerWord(s: string, c: char, p: char -> bool, before: seq<string>, word: string)
    requires p(c) && s != [] && p(s[|s| - 1]) && Words(s, p) == before + [word]
    ensures Words(s + [c], p) == before + [word + [c]]
  {
    assert (s + [c])[..|s|] == s;
  }

  lemma {:induction false} GapAddsNothing(s: string, gap: string, p: char -> bool)
    requires forall i :: 0 <= i < |gap| ==> !p(gap[i])
    ensures Words(s + gap, p) == Words(s, p)
  {
    if gap == [] {
      assert s + gap == s;
    } else {
      var k := |gap| - 1;
      assert (s + gap)[..|s + gap| - 1] == s + gap[..k];
      GapAddsNothing(s, gap[..k], p);
    }
  }

  /** `sep.join(parts)`. */
  function Joined(sep: string, parts: seq<string>): string {
    if parts == [] then ""
    else if |parts| == 1 then parts[0]
    else Joined(sep, parts[..|parts| - 1]) + sep + parts[|parts| - 1]
  }

  /** Joining words with a separator and splitting again gives the words back. */
  lemma {:induction false} SplitOfJoined(sep: string, parts: seq<string>, p: char -> bool)
    requires sep != [] && forall i :: 0 <= i < |sep| ==> !p(sep[i])
    requires forall i :: 0 <= i < |parts| ==> parts[i] != [] && AllOf(parts[i], p)
    ensures Words(Joined(sep, parts), p) == parts
  {
    hide Words, AllOf;
    NoWords(p);
    if |parts| == 1 {
      WordAfterGap("", parts[0], p);
      assert "" + parts[0] == parts[0];
    } else if |parts| > 1 {
      var k := |parts| - 1;
      var front := Joined(sep, parts[..k]);
      SplitOfJoined(sep, parts[..k], p);
      GapAddsNothing(front, sep, p);
      var gap := front + sep;
      assert gap[|gap| - 1] == sep[|sep| - 1];
      WordAfterGap(gap, parts[k], p);
      assert parts[..k] + [parts[k]] == parts;
    }
  }

  lemma NoWords(p: char -> bool)
    ensures Words("", p) == []
  {}

  lemma {:induction false} JoinedOf(sep: string, parts: seq<string>, q: char -> bool)
    requires AllOf(sep, q) && forall i :: 0 <= i < |parts| ==> AllOf(parts[i], q)
    ensures AllOf(Joined(sep, parts), q)
  {
    if |parts| > 1 { JoinedOf(sep, parts[..|parts| - 1], q); }
  }

  // ---- texts cut at a separator ----

  lemma CutAtFirst(c: char, a: string, x: string, b: string, y: string)
    requires c !in a && c !in b && a + [c] + x == b + [c] + y
    ensures a == b && x == y
  {
    var s, t := a + [c] + x, b + [c] + y;
    assert s[|a|] == c && t[|b|] == c;
    assert forall i :: 0 <= i < |a| ==> s[i] == a[i];
    assert forall i :: 0 <= i < |b| ==> t[i] == b[i];
    assert |a| == |b|;
    assert s[..|a|] == a && t[..|b|] == b && s[|a| + 1..] == x && t[|b| + 1..] == y;
  }

  lemma CutAtLast(c: char, a: string, x: string, b: string, y: string)
    requires c !in x && c !in y && a + [c] + x == b + [c] + y
    ensures a == b && x == y
  {
    var s, t := a + [c] + x, b + [c] + y;
    assert s[|a|] == c && t[|b|] == c;
    assert forall i :: |a| < i < |s| ==> s[i] == x[i - |a| - 1];
    assert forall i :: |b| < i < |t| ==> t[i] == y[i - |b| - 1];
    assert |a| == |b|;
    assert s[..|a|] == a && t[..|b|] == b && s[|a| + 1..] == x && t[|b| + 1..] == y;
  }

  function Occurrences(c: char, s: string): nat {
    if s == [] then 0 else Occurrences(c, s[..|s| - 1]) + if s[|s| - 1] == c then 1 else 0
  }

  lemma {:induction false} OccurrencesOfSum(c: char, s: string, t: string)
    ensures Occurrences(c, s + t) == Occurrences(c, s) + Occurrences(c, t)
  {
    if t == [] {
      assert s + t == s;
    } else {
      assert (s + t)[..|s + t| - 1] == s + t[..|t| - 1];
      OccurrencesOfSum(c, s, t[..|t| - 1]);
    }
  }

  lemma {:induction false} OccurrencesIff(c: char, s: string)
    ensures Occurrences(c, s) > 0 <==> c in s
  {
    if s != [] {
      OccurrencesIff(c, s[..|s| - 1]);
      assert s == s[..|s| - 1] + [s[|s| - 1]];
    }
  }

  /** The text before the first separator, and the text after it. */
  lemma {:induction false} FirstCut(c: char, s: string) returns (a: string, b: string)
    requires c in s
    ensures s == a + [c] + b && c !in a && Occurrences(c, b) == Occurrences(c, s) - 1
  {
    if s[0] == c {
      a, b := "", s[1..];
      assert s == [c] + b;
      OccurrencesOfSum(c, [c], b);
      assert [c][..0] == "";
    } else {
      assert s == [s[0]] + s[1..];
      OccurrencesOfSum(c, [s[0]], s[1..]);
      assert [s[0]][..0] == "";
      var front;
      front, b := FirstCut(c, s[1..]);
      a := [s[0]] + front;
      assert a + [c] + b == [s[0]] + (front + [c] + b);
    }
  }

  // ---- in plain terms ----

  /** What a decimal numeral reads as. */
  function Value(s: string): int {
    if s == [] then 0 else 10 * Value(s[..|s| - 1]) + (s[|s| - 1] as int - 48)
  }

  lemma {:induction false} DecimalReads(n: nat)
    ensures Value(Decimal(n)) == n
    ensures forall c :: c in Decimal(n) ==> '0' <= c <= '9'
    ensures n > 0 ==> Decimal(n)[0] != '0'
  {
    if n >= 10 {
      DecimalReads(n / 10);
      var s := Decimal(n);
      assert s[..|s| - 1] == Decimal(n / 10);
    } else {
      assert [Digit(n)][..0] == [];
    }
  }

  lemma SpacesAre(c: char)
    ensures c == ' ' || c == '\t' || c == '\n' || c == '\r' ==> IsSpace(c)
    ensures '!' <= c <= '~' ==> !IsSpace(c)
    ensures IsSpace(c) <==> c as int in [
      9, 10, 11, 12, 13, 28, 29, 30, 31, 32, 0x85, 0xA0, 0x1680,
      0x2000, 0x2001, 0x2002, 0x2003, 0x2004, 0x2005, 0x2006, 0x2007, 0x2008, 0x2009, 0x200A,
      0x2028, 0x2029, 0x202F, 0x205F, 0x3000]
  {}

  ghost predicate AllSpace(s: string) {
    forall i :: 0 <= i < |s| ==> IsSpace(s[i])
  }

  lemma {:induction false} LStripCuts(s: string) returns (a: string)
    ensures s == a + LStrip(s) && AllSpace(a)
    ensures LStrip(s) != "" ==> !IsSpace(LStrip(s)[0])
  {
    hide IsSpace;
    if s != [] && IsSpace(s[0]) {
      var rest := s[1..];
      var b := LStripCuts(rest);
      a := [s[0]] + b;
      assert s == [s[0]] + rest;
    } else {
      a := "";
    }
  }

  lemma {:induction false} RStripCuts(s: string) returns (b: string)
    ensures s == RStrip(s) + b && AllSpace(b)
    ensures RStrip(s) != "" ==> !IsSpace(RStrip(s)[|RStrip(s)| - 1])
  {
    if s != [] && IsSpace(s[|s| - 1]) {
      var k := |s| - 1;
      var a := RStripCuts(s[..k]);
      b := a + [s[k]];
      assert s == RStrip(s[..k]) + a + [s[k]];
    } else {
      b := "";
    }
  }

  /** Stripping takes all whitespace off both ends and nothing else. */
  lemma StripCuts(s: string)
    ensures exists a, b :: s == a + Strip(s) + b && AllSpace(a) && AllSpace(b)
    ensures var r := Strip(s); r != "" ==> !IsSpace(r[0]) && !IsSpace(r[|r| - 1])
  {
    var a := LStripCuts(s);
    var b := RStripCuts(LStrip(s));
    assert s == a + Strip(s) + b;
    if Strip(s) != "" { assert Strip(s)[0] == LStrip(s)[0]; }
  }

  lemma LettersLower(c: char)
    ensures LowerChar(c) as int == if 65 <= c as int <= 90 then c as int + 32 else c as int
  {}

  /** A run of characters satisfying `p` that cannot be extended. */
  ghost predicate RunAt(s: string, p: char -> bool, a: nat, b: nat) {
    a < b <= |s| && Unbroken(s, p, a, b)
  }

  ghost predicate Unbroken(s: string, p: char -> bool, a: nat, b: nat)
    requires a < b <= |s|
  {
    && (forall i :: a <= i < b ==> p(s[i]))
    && (a == 0 || !p(s[a - 1])) && (b == |s| || !p(s[b]))
  }

  /** The words are the maximal runs, each once and in order. */
  ghost predicate CutInto(s: string, p: char -> bool, at: seq<(nat, nat)>, words: seq<string>) {
    && |at| == |words|
    && (forall i :: 0 <= i < |at| ==> RunAt(s, p, at[i].0, at[i].1) && words[i] == s[at[i].0..at[i].1])
    && (forall i, j :: 0 <= i < j < |at| ==> at[i].1 < at[j].1)
    && (forall a: nat, b: nat :: RunAt(s, p, a, b) ==> (a, b) in at)
  }

  /** The words of a text with one more character. */
  ghost function WordsWith(words: seq<string>, s: string, c: char, p: char -> bool): seq<string> {
    if !p(c) then words
    else if s != [] && p(s[|s| - 1]) && words != [] then words[..|words| - 1] + [words[|words| - 1] + [c]]
    else words + [[c]]
  }

  lemma WordsStep(s: string, c: char, p: char -> bool)
    ensures Words(s + [c], p) == WordsWith(Words(s, p), s, c, p)
  {
    assert (s + [c])[..|s|] == s;
  }

  lemma {:induction false} WordsAreRuns(s: string, p: char -> bool) returns (at: seq<(nat, nat)>)
    ensures CutInto(s, p, at, Words(s, p))
  {
    if s == [] {
      at := [];
    } else {
      hide CutInto, Words, WordsWith;
      var front, c := s[..|s| - 1], s[|s| - 1];
      at := WordsAreRuns(front, p);
      at := CutFurther(front, c, p, at, Words(front, p));
      WordsStep(front, c, p);
      assert s == front + [c];
    }
  }

  lemma CutFurther(s: string, c: char, p: char -> bool, before: seq<(nat, nat)>, words: seq<string>) returns (at: seq<(nat, nat)>)
    requires CutInto(s, p, before, words)
    ensures CutInto(s + [c], p, at, WordsWith(words, s, c, p))
  {
    hide CutInto;
    if !p(c) {
      at := before;
      AfterGap(s, c, p, at, words);
    } else if s != [] && p(s[|s| - 1]) {
      at := InRun(s, c, p, before, words);
    } else {
      at := before + [(|s|, |s| + 1)];
      NewRun(s, c, p, before, words);
    }
  }

  lemma RunBefore(s: string, c: char, p: char -> bool, a: nat, b: nat)
    requires b <= |s| && (b == |s| ==> !p(c))
    ensures RunAt(s + [c], p, a, b) <==> RunAt(s, p, a, b)
    ensures a <= b ==> (s + [c])[a..b] == s[a..b]
  {
    var t := s + [c];
    assert forall i :: 0 <= i < |s| ==> t[i] == s[i];
    if a <= b { assert t[a..b] == s[a..b]; }
  }

  lemma AfterGap(s: string, c: char, p: char -> bool, at: seq<(nat, nat)>, words: seq<string>)
    requires CutInto(s, p, at, words) && !p(c)
    ensures CutInto(s + [c], p, at, words)
  {
    hide Unbroken;
    forall i | 0 <= i < |at| ensures RunAt(s + [c], p, at[i].0, at[i].1) && words[i] == (s + [c])[at[i].0..at[i].1] {
      RunBefore(s, c, p, at[i].0, at[i].1);
    }
    forall a: nat, b: nat | RunAt(s + [c], p, a, b) ensures (a, b) in at {
      if b == |s| + 1 { RunHolds(s + [c], p, a, b, |s|); }
      RunBefore(s, c, p, a, b);
    }
  }

  lemma RunHolds(s: string, p: char -> bool, a: nat, b: nat, i: int)
    requires RunAt(s, p, a, b) && a <= i < b
    ensures p(s[i])
  {}

  lemma NewRun(s: string, c: char, p: char -> bool, at: seq<(nat, nat)>, words: seq<string>)
    requires CutInto(s, p, at, words) && p(c) && (s == [] || !p(s[|s| - 1]))
    ensures CutInto(s + [c], p, at + [(|s|, |s| + 1)], words + [[c]])
  {
    var t, k := s + [c], |s|;
    assert t[k..k + 1] == [c] && RunAt(t, p, k, k + 1);
    hide Unbroken;
    forall i | 0 <= i < |at| ensures RunAt(t, p, at[i].0, at[i].1) && words[i] == t[at[i].0..at[i].1] && at[i].1 < k {
      RunHolds(s, p, at[i].0, at[i].1, at[i].1 - 1);
      RunBefore(s, c, p, at[i].0, at[i].1);
    }
    forall a: nat, b: nat | RunAt(t, p, a, b) ensures (a, b) in at + [(k, k + 1)] {
      if b > k { LastRun(t, p, a, b, k, k + 1); } else {
        if b == k { RunHolds(t, p, a, b, k - 1); }
        RunBefore(s, c, p, a, b);
      }
    }
  }

  /** Only one run ends at a place. */
  lemma LastRun(s: string, p: char -> bool, a: nat, b: nat, c: nat, d: nat)
    requires RunAt(s, p, a, b) && RunAt(s, p, c, d) && b == d
    ensures a == c
  {}

  lemma LastWord(s: string, p: char -> bool, at: seq<(nat, nat)>, words: seq<string>) returns (a: nat)
    requires CutInto(s, p, at, words) && s != [] && p(s[|s| - 1])
    ensures at != [] && at[|at| - 1] == (a, |s|) && a < |s|
  {
    a := RunToEnd(s, p);
    var z: nat :| z < |at| && at[z] == (a, |s|);
    var last := at[|at| - 1];
    assert at[z].1 <= last.1;
    LastRun(s, p, last.0, last.1, a, |s|);
  }

  lemma InRun(s: string, c: char, p: char -> bool, at: seq<(nat, nat)>, words: seq<string>) returns (more: seq<(nat, nat)>)
    requires CutInto(s, p, at, words) && p(c) && s != [] && p(s[|s| - 1])
    ensures words != []
    ensures CutInto(s + [c], p, more, words[..|words| - 1] + [words[|words| - 1] + [c]])
  {
    var a0 := LastWord(s, p, at, words);
    var t, k, z := s + [c], |s|, |at| - 1;
    more := at[..z] + [(a0, k + 1)];
    RunGrows(s, c, p, a0);
    hide Unbroken;
    forall i | 0 <= i < z ensures RunAt(t, p, at[i].0, at[i].1) && words[i] == t[at[i].0..at[i].1] && at[i].1 < k {
      assert at[i].1 < at[z].1;
      RunBefore(s, c, p, at[i].0, at[i].1);
    }
    forall a: nat, b: nat | RunAt(t, p, a, b) ensures (a, b) in more {
      if b > k {
        LastRun(t, p, a, b, a0, k + 1);
        assert more[z] == (a, b);
      } else {
        EarlierRun(s, c, p, at, words, a, b);
        var i :| 0 <= i < z && at[i] == (a, b);
        assert more[i] == (a, b);
      }
    }
  }

  lemma EarlierRun(s: string, c: char, p: char -> bool, at: seq<(nat, nat)>, words: seq<string>, a: nat, b: nat)
    requires CutInto(s, p, at, words) && p(c) && s != [] && p(s[|s| - 1])
    requires at != [] && at[|at| - 1].1 == |s| && RunAt(s + [c], p, a, b) && b <= |s|
    ensures exists i :: 0 <= i < |at| - 1 && at[i] == (a, b)
  {
    assert b < |s|;
    hide Unbroken;
    RunBefore(s, c, p, a, b);
    var i :| 0 <= i < |at| && at[i] == (a, b);
    assert i < |at| - 1;
  }

  lemma RunGrows(s: string, c: char, p: char -> bool, a: nat)
    requires RunAt(s, p, a, |s|) && p(c)
    ensures RunAt(s + [c], p, a, |s| + 1) && (s + [c])[a..|s| + 1] == s[a..|s|] + [c]
  {}

  lemma {:induction false} RunToEnd(s: string, p: char -> bool) returns (a: nat)
    requires s != [] && p(s[|s| - 1])
    ensures RunAt(s, p, a, |s|)
  {
    var k := |s| - 1;
    if k > 0 && p(s[k - 1]) {
      a := RunToEnd(s[..k], p);
      assert s == s[..k] + [s[k]];
      RunGrows(s[..k], s[k], p, a);
    } else {
      a := k;
    }
  }

  /** Of two classes that agree on the characters of a text the runs are the same. */
  lemma RunsAgree(s: string, p: char -> bool, q: char -> bool, a: nat, b: nat)
    requires forall i :: 0 <= i < |s| ==> p(s[i]) == q(s[i])
    ensures RunAt(s, p, a, b) <==> RunAt(s, q, a, b)
  {}

  /** A word is a maximal run. */
  lemma WordIffRun(s: string, p: char -> bool, w: string)
    ensures w in Words(s, p) <==> exists a: nat, b: nat :: RunAt(s, p, a, b) && w == s[a..b]
  {
    hide Words, Unbroken;
    var at := WordsAreRuns(s, p);
    if a: nat, b: nat :| RunAt(s, p, a, b) && w == s[a..b] {
      var i :| 0 <= i < |at| && at[i] == (a, b);
      assert Words(s, p)[i] == w;
    }
    if w in Words(s, p) {
      var i :| 0 <= i < |at| && Words(s, p)[i] == w;
      assert RunAt(s, p, at[i].0, at[i].1);
    }
  }

  /** Joining from the front: the first part, the separator, and the rest joined. */
  lemma {:induction false} JoinedFromFront(sep: string, parts: seq<string>)
    requires parts != []
    ensures Joined(sep, parts) == if |parts| == 1 then parts[0] else parts[0] + sep + Joined(sep, parts[1..])
  {
    var k := |parts| - 1;
    if k > 1 {
      JoinedFromFront(sep, parts[..k]);
      assert parts[..k][1..] == parts[1..][..k - 1];
      var rest := Joined(sep, parts[1..][..k - 1]);
      assert parts[0] + sep + rest + sep + parts[k] == parts[0] + sep + (rest + sep + parts[k]);
    }
  }
}
