/** Identities of finding locations that survive line drift (src/attackmap/fingerprint.py). */
module Fingerprint {
  import opened Text
  import opened Wrappers

  class Location {
    const file: string
    const line: Option<int>
    const instance: Option<string>
    var fingerprint: Option<string>

    constructor (file: string, line: Option<int>, instance: Option<string>)
      ensures this.file == file && this.line == line && this.instance == instance && fingerprint == None
    {
      this.file, this.line, this.instance := file, line, instance;
      fingerprint := None;
    }
  }

  datatype Finding = Finding(rule: string, locations: seq<Location>)

  /** The scanned tree: the lines of each readable file, and how a line is normalized. */
  datatype Tree = Tree(lines: string -> Option<seq<string>>, normalize: string -> string)

  function IntText(n: int): string {
    if n < 0 then "-" + Decimal(-n) else Decimal(n)
  }

  ghost predicate Available(t: Tree, file: string, line: int) {
    t.lines(file).Some? && 1 <= line <= |t.lines(file).value|
  }

  /** What stands for the source line: its normalized text, or its number when it cannot be read. */
  function Content(lines: Option<seq<string>>, normalize: string -> string, line: Option<int>): string {
    if line.None? then ""
    else if lines.None? || !(1 <= line.value <= |lines.value|) then "#line-unavailable:" + IntText(line.value)
    else normalize(lines.value[line.value - 1])
  }

  /** What occurrences are counted by. */
  datatype Key = Key(rule: string, file: string, content: string, instance: Option<string>)

  function KeyOf(t: Tree, rule: string, file: string, line: Option<int>, instance: Option<string>): Key {
    var path := ForwardSlashes(file);
    Key(rule, path, Content(t.lines(path), t.normalize, line), instance)
  }

  function Count(keys: seq<Key>, k: Key): nat {
    if keys == [] then 0 else Count(keys[..|keys| - 1], k) + if keys[|keys| - 1] == k then 1 else 0
  }

  /** What is digested: rule, file, line content, the instance if it names itself, and its occurrence. */
  function Parts(k: Key, occurrence: nat): seq<string> {
    if k.instance.None? then [k.rule, k.file, k.content, Decimal(occurrence)]
    else [k.rule, k.file, k.content, k.instance.value, Decimal(occurrence)]
  }

  function Identity(keys: seq<Key>, j: nat): seq<string>
    requires j < |keys|
  {
    Parts(keys[j], Count(keys[..j], keys[j]))
  }

  function KeysOf(t: Tree, rule: string, locations: seq<Location>): (r: seq<Key>)
    ensures |r| == |locations|
    ensures forall i :: 0 <= i < |r| ==> r[i] == KeyOf(t, rule, locations[i].file, locations[i].line, locations[i].instance)
  {
    seq(|locations|, i requires 0 <= i < |locations| => KeyOf(t, rule, locations[i].file, locations[i].line, locations[i].instance))
  }

  /** All keys, over all findings in order. */
  function AllKeys(t: Tree, findings: seq<Finding>): seq<Key> {
    if findings == [] then []
    else
      var f := findings[|findings| - 1];
      AllKeys(t, findings[..|findings| - 1]) + KeysOf(t, f.rule, f.locations)
  }

  function AllLocations(findings: seq<Finding>): seq<Location> {
    if findings == [] then [] else AllLocations(findings[..|findings| - 1]) + findings[|findings| - 1].locations
  }

  lemma {:induction false} SameLength(t: Tree, findings: seq<Finding>)
    ensures |AllKeys(t, findings)| == |AllLocations(findings)|
  {
    if findings != [] { SameLength(t, findings[..|findings| - 1]); }
  }

  // ---- identities ----

  lemma {:induction false} CountGrows(keys: seq<Key>, j: nat, k: nat)
    requires j < k <= |keys|
    ensures Count(keys[..j], keys[j]) < Count(keys[..k], keys[j])
    decreases k
  {
    assert keys[..k][..k - 1] == keys[..k - 1];
    if j < k - 1 { CountGrows(keys, j, k - 1); }
  }

  /** No two locations, in one finding or in two, have the same identity. */
  lemma IdentitiesDiffer(keys: seq<Key>, j: nat, k: nat)
    requires j < k < |keys|
    ensures Identity(keys, j) != Identity(keys, k)
  {
    if Identity(keys, j) == Identity(keys, k) {
      PartsDiffer(keys[j], Count(keys[..j], keys[j]), keys[k], Count(keys[..k], keys[k]));
      CountGrows(keys, j, k);
    }
  }

  lemma PartsDiffer(x: Key, m: nat, y: Key, n: nat)
    requires Parts(x, m) == Parts(y, n)
    ensures x == y && m == n
  {
    var a, b := Parts(x, m), Parts(y, n);
    assert a[0] == b[0] && a[1] == b[1] && a[2] == b[2] && a[|a| - 1] == b[|b| - 1];
    if x.instance.Some? { assert a[3] == b[3]; }
    DecimalInjective(m, n);
  }

  lemma {:induction false} CountOfSum(a: seq<Key>, b: seq<Key>, k: Key)
    ensures Count(a + b, k) == Count(a, k) + Count(b, k)
  {
    if b == [] {
      assert a + b == a;
    } else {
      assert (a + b)[..|a + b| - 1] == a + b[..|b| - 1];
      CountOfSum(a, b[..|b| - 1], k);
    }
  }

  /** A location with another rule, file, content or instance can come or go without changing this one. */
  lemma OtherInstancesDoNotMatter(before: seq<Key>, other: Key, between: seq<Key>, k: Key, rest: seq<Key>)
    requires other != k
    ensures
      Identity(before + [other] + between + [k] + rest, |before| + 1 + |between|) ==
      Identity(before + between + [k] + rest, |before| + |between|)
  {
    var with, without := before + [other] + between, before + between;
    var all, fewer := with + [k] + rest, without + [k] + rest;
    assert all[..|with|] == with && fewer[..|without|] == without;
    CountOfSum(before + [other], between, k);
    CountOfSum(before, [other], k);
    CountOfSum(before, between, k);
    assert [other][..0] == [];
  }

  /** The line was found at `line` in `t` and is found, unchanged, at `line'` in `t'`. */
  ghost predicate Moved(t: Tree, t': Tree, file: string, line: Option<int>, line': Option<int>) {
    || (line.None? && line'.None?)
    || (line.Some? && line'.Some? && Available(t, file, line.value) && Available(t', file, line'.value)
        && t.lines(file).value[line.value - 1] == t'.lines(file).value[line'.value - 1])
  }

  /** Neither tree has the line it is said to be on. */
  ghost predicate Unreadable(t: Tree, t': Tree, file: string, line: Option<int>, line': Option<int>) {
    line.Some? && line'.Some? && !Available(t, file, line.value) && !Available(t', file, line'.value)
  }

  ghost predicate Drifted(t: Tree, t': Tree, a: Location, b: Location) {
    && a.file == b.file && a.instance == b.instance
    && var file := ForwardSlashes(a.file);
       Moved(t, t', file, a.line, b.line) || Unreadable(t, t', file, a.line, b.line)
  }

  predicate SameShape(a: Finding, b: Finding) {
    a.rule == b.rule && |a.locations| == |b.locations|
  }

  ghost predicate FindingDrifted(t: Tree, t': Tree, a: Finding, b: Finding) {
    SameShape(a, b) && forall l :: 0 <= l < |a.locations| ==> Drifted(t, t', a.locations[l], b.locations[l])
  }

  /** The same findings in both trees, each location moved with its line, or not readable in either. */
  ghost predicate AllDrifted(t: Tree, t': Tree, a: seq<Finding>, b: seq<Finding>) {
    && t.normalize == t'.normalize && |a| == |b|
    && forall i :: 0 <= i < |a| ==> FindingDrifted(t, t', a[i], b[i])
  }

  /** A location whose line cannot be read is still said to be on the same line. */
  ghost predicate NumberKept(t: Tree, a: Location, b: Location) {
    a.line.Some? && !Available(t, ForwardSlashes(a.file), a.line.value) ==> a.line == b.line
  }

  ghost predicate FindingNumbersKept(t: Tree, a: Finding, b: Finding) {
    SameShape(a, b) && forall l :: 0 <= l < |a.locations| ==> NumberKept(t, a.locations[l], b.locations[l])
  }

  ghost predicate NumbersKept(t: Tree, a: seq<Finding>, b: seq<Finding>)
    requires |a| == |b|
  {
    forall i :: 0 <= i < |a| ==> FindingNumbersKept(t, a[i], b[i])
  }

  ghost predicate SameIdentities(x: seq<Key>, y: seq<Key>) {
    |x| == |y| && forall j :: 0 <= j < |x| ==> Identity(x, j) == Identity(y, j)
  }

  /** Over all findings, with the occurrences counted across them: when the code drifts, every
      identity is kept exactly when no unreadable location changes its line number. */
  lemma DriftKeepsIdentitiesIff(t: Tree, t': Tree, a: seq<Finding>, b: seq<Finding>)
    requires AllDrifted(t, t', a, b)
    ensures SameIdentities(AllKeys(t, a), AllKeys(t', b)) <==> NumbersKept(t, a, b)
  {
    hide Identity, Drifted, NumberKept, Content;
    if NumbersKept(t, a, b) {
      KeptNumbersKeepKeys(t, t', a, b);
    } else {
      var i :| 0 <= i < |a| && !FindingNumbersKept(t, a[i], b[i]);
      assert FindingDrifted(t, t', a[i], b[i]);
      var l :| 0 <= l < |a[i].locations| && !NumberKept(t, a[i].locations[l], b[i].locations[l]);
      LostNumberLosesIdentity(t, t', a, b, i, l);
    }
  }

  ghost predicate Readable(t: Tree, a: Location) {
    a.line.Some? ==> Available(t, ForwardSlashes(a.file), a.line.value)
  }

  ghost predicate AllReadable(t: Tree, a: Finding) {
    forall l :: 0 <= l < |a.locations| ==> Readable(t, a.locations[l])
  }

  /** Findings that move with their source lines, all readable, keep every identity. */
  lemma {:induction false} DriftKeepsIdentities(t: Tree, t': Tree, a: seq<Finding>, b: seq<Finding>)
    requires AllDrifted(t, t', a, b)
    requires forall i :: 0 <= i < |a| ==> AllReadable(t, a[i])
    ensures AllKeys(t, a) == AllKeys(t', b)
    ensures SameIdentities(AllKeys(t, a), AllKeys(t', b))
  {
    forall i | 0 <= i < |a| ensures FindingNumbersKept(t, a[i], b[i]) {
      assert FindingDrifted(t, t', a[i], b[i]) && AllReadable(t, a[i]);
      forall l | 0 <= l < |a[i].locations| ensures NumberKept(t, a[i].locations[l], b[i].locations[l]) {
        assert Readable(t, a[i].locations[l]);
      }
    }
    KeptNumbersKeepKeys(t, t', a, b);
  }

  lemma SameKey(t: Tree, t': Tree, a: Location, b: Location, rule: string)
    requires t.normalize == t'.normalize && Drifted(t, t', a, b)
    ensures NumberKept(t, a, b) <==>
      KeyOf(t, rule, a.file, a.line, a.instance) == KeyOf(t', rule, b.file, b.line, b.instance)
  {
    var file := ForwardSlashes(a.file);
    if Unreadable(t, t', file, a.line, b.line) {
      UnreadableLinesDrift(t, t', file, a.line.value, b.line.value);
    } else {
      SameContent(t, t', file, a.line, b.line);
    }
  }

  lemma {:induction false} KeptNumbersKeepKeys(t: Tree, t': Tree, a: seq<Finding>, b: seq<Finding>)
    requires AllDrifted(t, t', a, b) && NumbersKept(t, a, b)
    ensures AllKeys(t, a) == AllKeys(t', b)
  {
    hide Drifted, NumberKept, KeyOf;
    if a != [] {
      var k := |a| - 1;
      KeptNumbersKeepKeys(t, t', a[..k], b[..k]);
      assert FindingDrifted(t, t', a[k], b[k]) && FindingNumbersKept(t, a[k], b[k]);
      forall l | 0 <= l < |a[k].locations|
        ensures KeysOf(t, a[k].rule, a[k].locations)[l] == KeysOf(t', b[k].rule, b[k].locations)[l]
      {
        assert Drifted(t, t', a[k].locations[l], b[k].locations[l]) && NumberKept(t, a[k].locations[l], b[k].locations[l]);
        SameKey(t, t', a[k].locations[l], b[k].locations[l], a[k].rule);
      }
    }
  }

  lemma {:induction false} SameSizes(t: Tree, t': Tree, a: seq<Finding>, b: seq<Finding>)
    requires AllDrifted(t, t', a, b)
    ensures |AllKeys(t, a)| == |AllKeys(t', b)| && |AllLocations(a)| == |AllLocations(b)|
  {
    SameLength(t, a);
    SameLength(t', b);
    if a != [] {
      var k := |a| - 1;
      assert FindingDrifted(t, t', a[k], b[k]);
      SameSizes(t, t', a[..k], b[..k]);
      SameLength(t, a[..k]);
    }
  }

  lemma LostNumberLosesIdentity(t: Tree, t': Tree, a: seq<Finding>, b: seq<Finding>, i: nat, l: nat)
    requires AllDrifted(t, t', a, b) && i < |a| && l < |a[i].locations| == |b[i].locations|
    requires !NumberKept(t, a[i].locations[l], b[i].locations[l])
    ensures !SameIdentities(AllKeys(t, a), AllKeys(t', b))
  {
    hide Drifted, NumberKept, KeyOf, Identity, AllKeys, AllLocations;
    assert FindingDrifted(t, t', a[i], b[i]);
    assert Drifted(t, t', a[i].locations[l], b[i].locations[l]);
    SameKey(t, t', a[i].locations[l], b[i].locations[l], a[i].rule);
    SamePlace(t, t', a, b, i, l);
    SameIdentityIsSameKey(AllKeys(t, a), AllKeys(t', b), |AllLocations(a[..i])| + l);
  }

  lemma SamePlace(t: Tree, t': Tree, a: seq<Finding>, b: seq<Finding>, i: nat, l: nat)
    requires AllDrifted(t, t', a, b) && i < |a| && l < |a[i].locations| == |b[i].locations|
    ensures
      var j := |AllLocations(a[..i])| + l;
      && j < |AllKeys(t, a)| && j < |AllKeys(t', b)|
      && AllKeys(t, a)[j] == KeyOf(t, a[i].rule, a[i].locations[l].file, a[i].locations[l].line, a[i].locations[l].instance)
      && AllKeys(t', b)[j] == KeyOf(t', b[i].rule, b[i].locations[l].file, b[i].locations[l].line, b[i].locations[l].instance)
  {
    hide Drifted, KeyOf, AllKeys, AllLocations;
    FindingAt(t, a, i);
    FindingAt(t', b, i);
    SameSizes(t, t', a[..i], b[..i]);
  }

  /** An identity is never shared by places with different keys. */
  lemma SameIdentityIsSameKey(x: seq<Key>, y: seq<Key>, j: nat)
    requires j < |x| && j < |y|
    ensures Identity(x, j) == Identity(y, j) ==> x[j] == y[j]
  {
    if Identity(x, j) == Identity(y, j) { PartsDiffer(x[j], Count(x[..j], x[j]), y[j], Count(y[..j], y[j])); }
  }

  lemma SameContent(t: Tree, t': Tree, file: string, line: Option<int>, line': Option<int>)
    requires t.normalize == t'.normalize && Moved(t, t', file, line, line')
    ensures Content(t.lines(file), t.normalize, line) == Content(t'.lines(file), t'.normalize, line')
  {}

  lemma IntTextInjective(m: int, n: int)
    requires IntText(m) == IntText(n)
    ensures m == n
  {
    DigitsFirst(if m < 0 then -m else m);
    DigitsFirst(if n < 0 then -n else n);
    if m < 0 && n < 0 {
      assert IntText(m)[1..] == Decimal(-m) && IntText(n)[1..] == Decimal(-n);
      DecimalInjective(-m, -n);
    } else if m >= 0 && n >= 0 {
      DecimalInjective(m, n);
    }
  }

  lemma {:induction false} DigitsFirst(n: nat)
    ensures Decimal(n)[0] != '-'
  {
    if n >= 10 { DigitsFirst(n / 10); }
  }

  /** But a line that cannot be read is told apart by its number, so it does not survive drift. */
  lemma UnreadableLinesDrift(t: Tree, t': Tree, file: string, m: int, n: int)
    requires !Available(t, file, m) && !Available(t', file, n)
    ensures Content(t.lines(file), t.normalize, Some(m)) == Content(t'.lines(file), t'.normalize, Some(n)) <==> m == n
  {
    var x, y := "#line-unavailable:" + IntText(m), "#line-unavailable:" + IntText(n);
    if x == y {
      assert x[18..] == IntText(m) && y[18..] == IntText(n);
      IntTextInjective(m, n);
    }
  }

  // ---- the text that is digested ----

  const SEPARATOR: char := '\U{1F}'

  function DigestText(k: Key, occurrence: nat): string {
    Joined([SEPARATOR], Parts(k, occurrence))
  }

  /** What is digested for the j-th location of all. */
  function TextAt(keys: seq<Key>, j: nat): string
    requires j < |keys|
  {
    DigestText(keys[j], Count(keys[..j], keys[j]))
  }

  /** The separator is in none of the rule, the file and the line content; an instance may have it. */
  predicate Clean(k: Key) {
    SEPARATOR !in k.rule && SEPARATOR !in k.file && SEPARATOR !in k.content
  }

  /** The content, and the instance of a location that names itself. */
  function Named(k: Key): string {
    if k.instance.None? then k.content else k.content + [SEPARATOR] + k.instance.value
  }

  function Body(k: Key): string {
    k.rule + [SEPARATOR] + (k.file + [SEPARATOR] + Named(k))
  }

  lemma TextOfBody(k: Key, occurrence: nat)
    ensures DigestText(k, occurrence) == Body(k) + [SEPARATOR] + Decimal(occurrence)
  {
    var sep := [SEPARATOR];
    var p := Parts(k, occurrence);
    assert Joined(sep, p[..1]) == k.rule;
    assert p[..2][..1] == p[..1];
    assert Joined(sep, p[..2]) == k.rule + sep + k.file;
    assert p[..3][..2] == p[..2];
    assert Joined(sep, p[..3]) == k.rule + sep + k.file + sep + k.content;
    if k.instance.None? {
      assert p[..4][..3] == p[..3] && p[..4] == p;
      assert Body(k) == Joined(sep, p[..3]);
    } else {
      assert p[..4][..3] == p[..3] && p[..5][..4] == p[..4] && p[..5] == p;
      assert Joined(sep, p[..4]) == Joined(sep, p[..3]) + sep + k.instance.value;
      assert Body(k) == Joined(sep, p[..4]);
    }
  }

  lemma {:induction false} DecimalIsClean(n: nat)
    ensures SEPARATOR !in Decimal(n)
  {
    if n >= 10 { DecimalIsClean(n / 10); }
  }

  /** The joined texts of clean identities are as different as the identities. */
  lemma CleanTextsDiffer(x: Key, m: nat, y: Key, n: nat)
    requires Clean(x) && Clean(y) && DigestText(x, m) == DigestText(y, n)
    ensures x == y && m == n
  {
    hide Joined, Parts, Decimal;
    TextOfBody(x, m);
    TextOfBody(y, n);
    DecimalIsClean(m);
    DecimalIsClean(n);
    CutAtLast(SEPARATOR, Body(x), Decimal(m), Body(y), Decimal(n));
    DecimalInjective(m, n);
    SameBody(x, y);
  }

  lemma SameBody(x: Key, y: Key)
    requires Clean(x) && Clean(y) && Body(x) == Body(y)
    ensures x == y
  {
    CutAtFirst(SEPARATOR, x.rule, x.file + [SEPARATOR] + Named(x), y.rule, y.file + [SEPARATOR] + Named(y));
    CutAtFirst(SEPARATOR, x.file, Named(x), y.file, Named(y));
    NamedByItself(x);
    NamedByItself(y);
    if x.instance.Some? && y.instance.Some? {
      CutAtFirst(SEPARATOR, x.content, x.instance.value, y.content, y.instance.value);
    }
  }

  lemma NamedByItself(k: Key)
    requires Clean(k)
    ensures SEPARATOR in Named(k) <==> k.instance.Some?
  {
    if k.instance.Some? { assert Named(k)[|k.content|] == SEPARATOR; }
  }

  /** No two places of a run over clean keys have the same text digested. */
  lemma DigestTextsDiffer(keys: seq<Key>, j: nat, k: nat)
    requires j < k < |keys| && Clean(keys[j]) && Clean(keys[k])
    ensures TextAt(keys, j) != TextAt(keys, k)
  {
    hide DigestText, Clean;
    if TextAt(keys, j) == TextAt(keys, k) {
      CleanTextsDiffer(keys[j], Count(keys[..j], keys[j]), keys[k], Count(keys[..k], keys[k]));
      CountGrows(keys, j, k);
    }
  }

  lemma SeparatorsInBody(k: Key)
    ensures Occurrences(SEPARATOR, Body(k)) == Occurrences(SEPARATOR, k.rule) + Occurrences(SEPARATOR, k.file)
              + Occurrences(SEPARATOR, k.content) + 2
              + if k.instance.Some? then 1 + Occurrences(SEPARATOR, k.instance.value) else 0
  {
    var sep := [SEPARATOR];
    assert sep[..0] == "";
    OccurrencesOfSum(SEPARATOR, k.rule + sep, k.file + sep + Named(k));
    OccurrencesOfSum(SEPARATOR, k.rule, sep);
    OccurrencesOfSum(SEPARATOR, k.file + sep, Named(k));
    OccurrencesOfSum(SEPARATOR, k.file, sep);
    if k.instance.Some? {
      OccurrencesOfSum(SEPARATOR, k.content + sep, k.instance.value);
      OccurrencesOfSum(SEPARATOR, k.content, sep);
    }
  }

  /** An identity shares its text with another, clean one exactly when it is not clean itself. */
  lemma SharesItsTextIff(k: Key, n: nat)
    ensures (exists x :: x != k && Clean(x) && DigestText(x, n) == DigestText(k, n)) <==> !Clean(k)
  {
    if Clean(k) {
      forall x | Clean(x) && DigestText(x, n) == DigestText(k, n) ensures x == k { CleanTextsDiffer(x, n, k, n); }
    } else {
      hide DigestText;
      OccurrencesIff(SEPARATOR, k.rule);
      OccurrencesIff(SEPARATOR, k.file);
      OccurrencesIff(SEPARATOR, k.content);
      SeparatorsInBody(k);
      var x := CleanReading(k);
      TextOfBody(k, n);
      TextOfBody(x, n);
      assert x != k && Clean(x) && DigestText(x, n) == DigestText(k, n);
    }
  }

  /** Two locations whose identities are joined to one text. */
  lemma SeparatorsCollide()
    ensures DigestText(Key("r", "a" + [SEPARATOR] + "b", "c", None), 0) == DigestText(Key("r", "a", "b", Some("c")), 0)
  {
    var x, y := Key("r", "a" + [SEPARATOR] + "b", "c", None), Key("r", "a", "b", Some("c"));
    TextOfBody(x, 0);
    TextOfBody(y, 0);
    assert Body(x) == Body(y);
  }

  lemma CleanReading(k: Key) returns (x: Key)
    requires Occurrences(SEPARATOR, Body(k)) >= 3
    ensures Clean(x) && Body(x) == Body(k)
  {
    hide Occurrences;
    OccurrencesIff(SEPARATOR, Body(k));
    var rule, afterRule := FirstCut(SEPARATOR, Body(k));
    OccurrencesIff(SEPARATOR, afterRule);
    var file, afterFile := FirstCut(SEPARATOR, afterRule);
    OccurrencesIff(SEPARATOR, afterFile);
    var content, instance := FirstCut(SEPARATOR, afterFile);
    x := Key(rule, file, content, Some(instance));
  }

  // ---- identities in plain terms ----

  /** The number a numeral stands for, with a minus sign if it is negative. */
  function NumberOf(s: string): int {
    if s != "" && s[0] == '-' then -Value(s[1..]) else Value(s)
  }

  /** What a location is counted by: its rule, its file with forward slashes, the normalized text of
      its line, if it has one, and what it calls itself. A line that is not there is named by its number. */
  ghost predicate IsKeyOf(t: Tree, rule: string, loc: Location, k: Key) {
    && k.rule == rule && k.instance == loc.instance
    && |k.file| == |loc.file|
    && (forall i :: 0 <= i < |k.file| ==> k.file[i] == if loc.file[i] == '\\' then '/' else loc.file[i])
    && match loc.line
       case None => k.content == ""
       case Some(n) =>
         var lines := t.lines(k.file);
         if lines.Some? && 1 <= n <= |lines.value| then k.content == t.normalize(lines.value[n - 1])
         else "#line-unavailable:" <= k.content && NumberOf(k.content[18..]) == n
  }

  /** The digest of rule, file, content, name if any, and number of earlier places with the same key,
      with the character 31 in between. */
  ghost predicate IsDigestAt(keys: seq<Key>, digest: string -> string, j: nat, fingerprint: Option<string>)
    requires j < |keys|
  {
    var k := keys[j];
    var name := if k.instance.None? then "" else "\U{1F}" + k.instance.value;
    fingerprint == Some(digest(
      k.rule + "\U{1F}" + k.file + "\U{1F}" + k.content + name + "\U{1F}" + Decimal(|Earlier(keys, j)|)))
  }

  ghost function Earlier(keys: seq<Key>, j: nat): set<nat>
    requires j < |keys|
  {
    set i: nat | i < j && keys[i] == keys[j]
  }

  lemma NumberOfText(n: int)
    ensures NumberOf(IntText(n)) == n
  {
    DecimalReads(if n < 0 then -n else n);
    DigitsFirst(if n < 0 then -n else n);
  }

  lemma KeyOfIs(t: Tree, rule: string, loc: Location)
    ensures IsKeyOf(t, rule, loc, KeyOf(t, rule, loc.file, loc.line, loc.instance))
  {
    if loc.line.Some? {
      NumberOfText(loc.line.value);
      var text := "#line-unavailable:" + IntText(loc.line.value);
      assert text[18..] == IntText(loc.line.value);
    }
  }

  ghost predicate KeyedAt(t: Tree, findings: seq<Finding>, i: nat, l: nat)
    requires i < |findings| && l < |findings[i].locations|
  {
    var j := |AllLocations(findings[..i])| + l;
    && j < |AllLocations(findings)| == |AllKeys(t, findings)|
    && AllLocations(findings)[j] == findings[i].locations[l]
    && IsKeyOf(t, findings[i].rule, findings[i].locations[l], AllKeys(t, findings)[j])
  }

  /** The keys are those of the locations, finding after finding. */
  lemma KeysAre(t: Tree, findings: seq<Finding>, i: nat, l: nat)
    requires i < |findings| && l < |findings[i].locations|
    ensures KeyedAt(t, findings, i, l)
  {
    hide AllKeys, AllLocations, KeyOf, IsKeyOf;
    FindingAt(t, findings, i);
    KeyOfIs(t, findings[i].rule, findings[i].locations[l]);
  }

  lemma {:induction false} CountIsEarlier(keys: seq<Key>, k: Key)
    ensures Count(keys, k) == |set i: nat | i < |keys| && keys[i] == k|
  {
    if keys != [] {
      var n := |keys| - 1;
      CountIsEarlier(keys[..n], k);
      assert (set i: nat | i < |keys| && keys[i] == k) ==
        (set i: nat | i < n && keys[..n][i] == k) + if keys[n] == k then {n} else {};
    }
  }

  lemma TextIs(keys: seq<Key>, digest: string -> string, j: nat)
    requires j < |keys|
    ensures IsDigestAt(keys, digest, j, Some(digest(TextAt(keys, j))))
  {
    hide Decimal, Joined, Parts, DigestText;
    var k, n := keys[j], Count(keys[..j], keys[j]);
    CountIsEarlier(keys[..j], k);
    assert Earlier(keys, j) == set i: nat | i < j && keys[..j][i] == k;
    TextOfBody(k, n);
    var sep := "\U{1F}";
    if k.instance.None? {
      assert Body(k) == k.rule + sep + k.file + sep + k.content + "";
    } else {
      assert Body(k) == k.rule + sep + k.file + sep + k.content + (sep + k.instance.value);
    }
  }

  // ---- assignment ----

  /** The first `n` mention the j-th object no more after the j-th place. */
  ghost predicate LastBefore(all: seq<Location>, j: nat, n: nat)
    requires n <= |all| && j < n
  {
    forall k :: j < k < n ==> all[k] != all[j]
  }

  /** Each location among the first `n` has the digest of its identity, by the last place it is at. */
  ghost predicate Stamped(all: seq<Location>, keys: seq<Key>, digest: string -> string, n: nat)
    requires n <= |all| == |keys|
    reads all
  {
    forall j :: 0 <= j < n && LastBefore(all, j, n) ==> all[j].fingerprint == Some(digest(TextAt(keys, j)))
  }

  /** Sets the fingerprint of every location of every finding; a location object listed twice ends
      up with the one of its last place. */
  method AssignFingerprints(t: Tree, digest: string -> string, findings: seq<Finding>)
    modifies AllLocations(findings)
    ensures |AllKeys(t, findings)| == |AllLocations(findings)|
    ensures Stamped(AllLocations(findings), AllKeys(t, findings), digest, |AllLocations(findings)|)
    ensures forall i, l :: 0 <= i < |findings| && 0 <= l < |findings[i].locations| ==> KeyedAt(t, findings, i, l)
    ensures
      var all := AllLocations(findings);
      forall j :: 0 <= j < |all| && LastBefore(all, j, |all|) ==>
        IsDigestAt(AllKeys(t, findings), digest, j, all[j].fingerprint)
  {
    hide KeyedAt, IsDigestAt;
    hide TextAt, Counted, DigestText, AllKeys, AllLocations, Stamped, Content;
    ghost var all, keys := AllLocations(findings), AllKeys(t, findings);
    SameLength(t, findings);
    NothingStamped(all, keys, digest);
    NoLocations();
    var cache: map<string, Option<seq<string>>> := map[];
    var seen: map<Key, nat> := map[];
    ghost var done: nat := 0;
    for i := 0 to |findings|
      invariant done == |AllLocations(findings[..i])| <= |all|
      invariant Counted(keys, done, seen) && Stamped(all, keys, digest, done)
      invariant forall p :: p in cache ==> cache[p] == t.lines(p)
    {
      var f := findings[i];
      FindingAt(t, findings, i);
      for l := 0 to |f.locations|
        invariant done == |AllLocations(findings[..i])| + l <= |all|
        invariant Counted(keys, done, seen) && Stamped(all, keys, digest, done)
        invariant forall p :: p in cache ==> cache[p] == t.lines(p)
      {
        var loc := f.locations[l];
        assert all[done] == loc && keys[done] == KeyOf(t, f.rule, loc.file, loc.line, loc.instance);
        var file := ForwardSlashes(loc.file);
        if file !in cache { cache := cache[file := t.lines(file)]; }
        var key := Key(f.rule, file, Content(cache[file], t.normalize, loc.line), loc.instance);
        var occurrence := if key in seen then seen[key] else 0;
        assert key == keys[done];
        CountedNext(keys, done, seen);
        seen := seen[key := occurrence + 1];
        Stamp(loc, digest, DigestText(key, occurrence), all, keys, done);
        done := done + 1;
      }
    }
    assert findings[..|findings|] == findings;
    forall i, l | 0 <= i < |findings| && 0 <= l < |findings[i].locations| ensures KeyedAt(t, findings, i, l) {
      KeysAre(t, findings, i, l);
    }
    DigestsAre(all, keys, digest);
  }

  lemma DigestsAre(all: seq<Location>, keys: seq<Key>, digest: string -> string)
    requires |all| == |keys| && Stamped(all, keys, digest, |all|)
    ensures forall j :: 0 <= j < |all| && LastBefore(all, j, |all|) ==> IsDigestAt(keys, digest, j, all[j].fingerprint)
  {
    hide IsDigestAt, TextAt, LastBefore;
    forall j | 0 <= j < |all| && LastBefore(all, j, |all|) ensures IsDigestAt(keys, digest, j, all[j].fingerprint) {
      TextIs(keys, digest, j);
    }
  }

  ghost predicate Counted(keys: seq<Key>, done: nat, seen: map<Key, nat>)
    requires done <= |keys|
  {
    forall k :: Count(keys[..done], k) == if k in seen then seen[k] else 0
  }

  lemma NothingStamped(all: seq<Location>, keys: seq<Key>, digest: string -> string)
    requires |all| == |keys|
    ensures Counted(keys, 0, map[]) && Stamped(all, keys, digest, 0)
  {}

  lemma NoLocations()
    ensures AllLocations([]) == []
  {}

  method Stamp(loc: Location, digest: string -> string, text: string,
               ghost all: seq<Location>, ghost keys: seq<Key>, ghost n: nat)
    requires n < |all| == |keys| && Stamped(all, keys, digest, n)
    requires loc == all[n] && text == TextAt(keys, n)
    modifies loc
    ensures Stamped(all, keys, digest, n + 1)
    ensures loc.fingerprint == Some(digest(text))
  {
    hide TextAt;
    loc.fingerprint := Some(digest(text));
    forall j | 0 <= j < n && LastBefore(all, j, n + 1)
      ensures all[j].fingerprint == Some(digest(TextAt(keys, j)))
    {
      assert all[n] != all[j] && LastBefore(all, j, n);
    }
  }

  lemma CountedNext(keys: seq<Key>, done: nat, seen: map<Key, nat>)
    requires done < |keys| && Counted(keys, done, seen)
    ensures Counted(keys, done + 1, seen[keys[done] := (if keys[done] in seen then seen[keys[done]] else 0) + 1])
    ensures TextAt(keys, done) == DigestText(keys[done], if keys[done] in seen then seen[keys[done]] else 0)
  {
    assert keys[..done + 1][..done] == keys[..done];
  }

  lemma {:induction false} FindingsPrefix(t: Tree, findings: seq<Finding>, i: nat)
    requires i <= |findings|
    ensures AllLocations(findings[..i]) <= AllLocations(findings) && AllKeys(t, findings[..i]) <= AllKeys(t, findings)
    decreases |findings| - i
  {
    if i == |findings| {
      assert findings[..i] == findings;
    } else {
      FindingsPrefix(t, findings, i + 1);
      assert findings[..i + 1][..i] == findings[..i];
    }
  }

  /** Where the locations of the i-th finding sit among all. */
  lemma FindingAt(t: Tree, findings: seq<Finding>, i: nat)
    requires i < |findings|
    ensures
      var f, before := findings[i], |AllLocations(findings[..i])|;
      && |AllLocations(findings[..i + 1])| == before + |f.locations| <= |AllLocations(findings)|
      && |AllKeys(t, findings)| == |AllLocations(findings)|
      && forall l :: 0 <= l < |f.locations| ==>
           AllLocations(findings)[before + l] == f.locations[l]
           && AllKeys(t, findings)[before + l] == KeysOf(t, f.rule, f.locations)[l]
  {
    SameLength(t, findings);
    SameLength(t, findings[..i]);
    FindingsPrefix(t, findings, i + 1);
    assert findings[..i + 1][..i] == findings[..i];
    var locs, keys := AllLocations(findings[..i + 1]), AllKeys(t, findings[..i + 1]);
    assert forall j :: 0 <= j < |locs| ==> AllLocations(findings)[j] == locs[j] && AllKeys(t, findings)[j] == keys[j];
  }
}
