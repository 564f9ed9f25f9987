/** Line numbers by binary search over the recorded line starts (src/attackmap/config_scanner.py). */
module ConfigScanner {

  function Newlines(s: string): nat {
    if s == [] then 0 else Newlines(s[..|s| - 1]) + if s[|s| - 1] == '\n' then 1 else 0
  }

  /** `content.find("\n", from)`. */
  function FindNewline(content: string, from: nat): (r: int)
    requires from <= |content|
    ensures r == -1 || from <= r < |content|
    ensures r != -1 ==> content[r] == '\n'
    ensures forall k :: from <= k < (if r == -1 then |content| else r) ==> content[k] != '\n'
    decreases |content| - from
  {
    if from == |content| then -1
    else if content[from] == '\n' then from
    else FindNewline(content, from + 1)
  }

  /** The starts of the lines that begin within the first `upTo` characters, in order. */
  ghost predicate LineStarts(content: string, starts: seq<nat>, upTo: nat)
    requires upTo <= |content|
  {
    && starts != [] && starts[0] == 0
    && (forall i, j :: 0 <= i < j < |starts| ==> starts[i] < starts[j])
    && (forall i :: 0 < i < |starts| ==> 0 < starts[i] <= upTo && content[starts[i] - 1] == '\n')
    && (forall k :: 0 <= k < upTo && content[k] == '\n' ==> k + 1 in starts)
  }

  lemma NextLine(content: string, starts: seq<nat>, upTo: nat, idx: nat)
    requires upTo <= idx < |content| && LineStarts(content, starts, upTo)
    requires content[idx] == '\n' && forall k :: upTo <= k < idx ==> content[k] != '\n'
    ensures LineStarts(content, starts + [idx + 1], idx + 1)
  {
    var more := starts + [idx + 1];
    forall k | 0 <= k < idx + 1 && content[k] == '\n' ensures k + 1 in more {
      if k < upTo { assert k + 1 in starts; } else { assert more[|starts|] == k + 1; }
    }
    forall i, j | 0 <= i < j < |more| ensures more[i] < more[j] {
      if i > 0 && j == |starts| { assert starts[i] <= upTo; }
    }
  }

  lemma LastLine(content: string, starts: seq<nat>, upTo: nat)
    requires upTo <= |content| && LineStarts(content, starts, upTo)
    requires forall k :: upTo <= k < |content| ==> content[k] != '\n'
    ensures LineStarts(content, starts, |content|)
  {}

  /** If exactly the first `k` starts lie at or before `m`, then `m` is on line `k`. */
  lemma {:induction false} StartsBefore(content: string, starts: seq<nat>, k: nat, m: nat)
    requires LineStarts(content, starts, |content|) && k <= |starts| && m <= |content|
    requires forall i :: 0 <= i < |starts| ==> (starts[i] <= m <==> i < k)
    ensures k == 1 + Newlines(content[..m])
  {
    if m == 0 {
      assert forall i :: 0 < i < |starts| ==> starts[0] < starts[i];
    } else {
      assert content[..m][..m - 1] == content[..m - 1];
      if content[m - 1] == '\n' {
        assert m in starts;
        var i :| 0 <= i < |starts| && starts[i] == m;
        assert i < k && starts[k - 1] <= m;
        assert i == k - 1;
        StartsBefore(content, starts, k - 1, m - 1);
      } else {
        forall i | 0 <= i < |starts| ensures starts[i] != m {}
        StartsBefore(content, starts, k, m - 1);
      }
    }
  }

  /** `bisect.bisect_right`. */
  method BisectRight(a: seq<nat>, x: int) returns (lo: nat)
    requires forall i, j :: 0 <= i < j < |a| ==> a[i] < a[j]
    ensures lo <= |a|
    ensures forall i :: 0 <= i < |a| ==> (a[i] <= x <==> i < lo)
  {
    lo := 0;
    var hi := |a|;
    while lo < hi
      invariant 0 <= lo <= hi <= |a|
      invariant forall i :: 0 <= i < lo ==> a[i] <= x
      invariant forall i :: hi <= i < |a| ==> x < a[i]
    {
      var mid := (lo + hi) / 2;
      if x < a[mid] { hi := mid; } else { lo := mid + 1; }
    }
  }

  class LineIndex {
    var starts: seq<nat>
    ghost const content: string

    ghost predicate Valid()
      reads this
    {
      LineStarts(content, starts, |content|)
    }

    constructor (content: string)
      ensures Valid() && this.content == content
    {
      var found: seq<nat> := [0];
      var idx := FindNewline(content, 0);
      ghost var scanned := 0;
      while idx != -1
        invariant scanned <= |content| && LineStarts(content, found, scanned)
        invariant idx == FindNewline(content, scanned)
        decreases |content| - scanned
      {
        NextLine(content, found, scanned, idx);
        found := found + [idx + 1];
        scanned := idx + 1;
        idx := FindNewline(content, idx + 1);
      }
      LastLine(content, found, scanned);
      starts := found;
      this.content := content;
    }

    /** One plus the newlines before the offset; offsets outside the text count as its ends. */
    method LineOf(offset: int) returns (line: nat)
      requires Valid()
      ensures line == 1 + Newlines(content[..if offset < 0 then 0 else if offset > |content| then |content| else offset])
    {
      if offset <= 0 { return 1; }
      line := BisectRight(starts, offset);
      StartsBefore(content, starts, line, if offset > |content| then |content| else offset);
    }
  }
}
