/** The authorization pass's own bracket scanners (src/attackmap/authz.py), and their agreement
    with the typed matcher. */
module Authz {
  import opened Wrappers
  import opened Text
  import opened HandlerAuth

  // ---- the closing parenthesis of a call ----

  function Weight(c: char): int { if c == '(' then 1 else if c == ')' then -1 else 0 }

  /** Opening minus closing parentheses in code[lo..hi]. */
  function Depth(code: string, lo: nat, hi: nat): int
    requires lo <= hi <= |code|
  {
    if lo == hi then 0 else Depth(code, lo, hi - 1) + Weight(code[hi - 1])
  }

  /** The depth counted from `open` comes down to zero at the `)` at `i`. */
  ghost predicate Zero(code: string, open: nat, i: nat)
    requires open <= i < |code|
  {
    code[i] == ')' && Depth(code, open, i + 1) == 0
  }

  /** ... and at no `)` before it. */
  ghost predicate ClosesAt(code: string, open: nat, i: nat) {
    && open <= i < |code| && Zero(code, open, i)
    && forall k :: open <= k < i ==> !Zero(code, open, k)
  }

  method CallClose(code: string, openParen: nat, limit: nat) returns (r: Option<nat>)
    ensures r.Some? ==> r.value < openParen + limit && ClosesAt(code, openParen, r.value)
    ensures r.None? ==> forall i: nat :: i < openParen + limit ==> !ClosesAt(code, openParen, i)
  {
    var depth := 0;
    var end := if |code| < openParen + limit then |code| else openParen + limit;
    var i := openParen;
    while i < end
      invariant openParen <= i && (i <= end || i == openParen)
      invariant i <= |code| ==> depth == Depth(code, openParen, i)
      invariant forall k :: openParen <= k < i && k < |code| ==> !Zero(code, openParen, k)
    {
      if code[i] == '(' {
        depth := depth + 1;
      } else if code[i] == ')' {
        depth := depth - 1;
        if depth == 0 { return Some(i); }
      }
      i := i + 1;
    }
    r := None;
  }

  // ---- agreement with the typed matcher ----

  ghost predicate ParensOnly(code: string) {
    forall k :: 0 <= k < |code| && IsBracket(code[k]) ==> code[k] == '(' || code[k] == ')'
  }

  /** Pairs are never taken back, and a new one opens at a bracket still on the stack. */
  lemma {:induction false} PairsOnlyGrow(code: string, m: nat, n: nat)
    requires m <= n <= |code|
    ensures forall a :: a in ScanTo(code, m).pairs && a !in ScanTo(code, m).stack ==>
      a in ScanTo(code, n).pairs && ScanTo(code, n).pairs[a] == ScanTo(code, m).pairs[a] && a !in ScanTo(code, n).stack
  {
    if m < n {
      PairsOnlyGrow(code, m, n - 1);
      hide Sound;
      ScanIsSound(code, n - 1);
    }
  }

  /** Until the depth counted from `p` comes back to zero, `p` stays on the stack at a fixed
      height, and the stack above it is as high as that depth. */
  ghost predicate StillOpen(code: string, p: nat, n: nat)
    requires p < n <= |code|
  {
    var base, now := ScanTo(code, p).stack, ScanTo(code, n);
    && base + [p] <= now.stack && |now.stack| - |base| == Depth(code, p, n)
    && p !in now.pairs && forall k :: 0 <= k < |now.stack| ==> code[now.stack[k]] == '('
  }

  lemma {:induction false} StackIsParens(code: string, n: nat)
    requires ParensOnly(code) && n <= |code|
    ensures forall k :: 0 <= k < |ScanTo(code, n).stack| ==> code[ScanTo(code, n).stack[k]] == '('
  {
    ScanIsSound(code, n);
    var stack := ScanTo(code, n).stack;
    forall k | 0 <= k < |stack| ensures code[stack[k]] == '(' {
      assert IsOpener(code[stack[k]]);
    }
  }

  /** On parenthesis-only text a `)` never drops an opener: it takes the top of the stack. */
  lemma ParenStep(code: string, n: nat)
    requires ParensOnly(code) && n < |code|
    ensures var st := ScanTo(code, n);
      ScanTo(code, n + 1) ==
        (if code[n] == '(' then st.(stack := st.stack + [n])
         else if code[n] == ')' && st.stack != [] then
           Scan(st.stack[..|st.stack| - 1], st.pairs[st.stack[|st.stack| - 1] := n])
         else st)
  {
    StackIsParens(code, n);
  }

  lemma OpenStep(code: string, p: nat, n: nat)
    requires ParensOnly(code) && p < n < |code| && StillOpen(code, p, n) && !Zero(code, p, n)
    requires Depth(code, p, n) > 0
    ensures StillOpen(code, p, n + 1) && Depth(code, p, n + 1) > 0
  {
    var st := ScanTo(code, n);
    ParenStep(code, n);
    StackIsParens(code, n + 1);
    var base := ScanTo(code, p).stack;
    if code[n] == ')' {
      assert |st.stack| > |base| + 1;
      assert st.stack[|base|] == p;
      ScanIsSound(code, n);
    }
  }

  lemma OpenAtStart(code: string, p: nat)
    requires ParensOnly(code) && p < |code| && code[p] == '('
    ensures StillOpen(code, p, p + 1) && Depth(code, p, p + 1) > 0
  {
    ParenStep(code, p);
    StackIsParens(code, p + 1);
    assert Depth(code, p, p) == 0;
    NotPairedYet(code, p);
  }

  lemma {:induction false} OpenUntil(code: string, p: nat, n: nat)
    requires ParensOnly(code) && p < n <= |code| && code[p] == '('
    requires forall k :: p <= k < n ==> !Zero(code, p, k)
    ensures StillOpen(code, p, n) && Depth(code, p, n) > 0
  {
    hide StillOpen, ParensOnly;
    if n == p + 1 {
      OpenAtStart(code, p);
    } else {
      OpenUntil(code, p, n - 1);
      OpenStep(code, p, n - 1);
    }
  }

  lemma NotPairedYet(code: string, p: nat)
    requires p <= |code|
    ensures p !in ScanTo(code, p).pairs
  {
    ScanIsSound(code, p);
    var pairs := ScanTo(code, p).pairs;
    assert p in pairs ==> SameKind(code, p, pairs[p]);
  }

  lemma PairedWhenZero(code: string, p: nat, i: nat)
    requires ParensOnly(code) && ClosesAt(code, p, i) && code[p] == '('
    ensures p in Matching(code) && Matching(code)[p] == i
  {
    assert Depth(code, p, p) == 0;
    assert i > p;
    OpenUntil(code, p, i);
    var st := ScanTo(code, i);
    var base := ScanTo(code, p).stack;
    assert st.stack == base + [p];
    ParenStep(code, i);
    hide StillOpen, Depth, ScanTo, ParensOnly;
    assert st.stack[..|base|] == base;
    StackIsBelow(code, p);
    PairsOnlyGrow(code, i + 1, |code|);
  }

  lemma StackIsBelow(code: string, n: nat)
    requires n <= |code|
    ensures forall a :: a in ScanTo(code, n).stack ==> a < n
  {
    ScanIsSound(code, n);
  }

  /** On text whose only brackets are parentheses, the depth counter and the stack find the
      same partner, balanced or not. */
  lemma CloseIsOnlyPartner(code: string, p: nat, i: nat)
    requires ParensOnly(code) && p < |code| && code[p] == '('
    ensures ClosesAt(code, p, i) <==> p in Matching(code) && Matching(code)[p] == i
  {
    if p in Matching(code) {
      if forall k :: p <= k < |code| ==> !Zero(code, p, k) {
        OpenUntil(code, p, |code|);
        assert false;
      }
      var z :| p <= z < |code| && Zero(code, p, z);
      var first := FirstZero(code, p, z);
      PairedWhenZero(code, p, first);
    }
    if ClosesAt(code, p, i) { PairedWhenZero(code, p, i); }
  }

  /** The text with every bracket of another kind blotted out. */
  function OnlyKind(code: string, open: char): (r: string)
    requires IsOpener(open)
    ensures |r| == |code|
    ensures forall k :: 0 <= k < |r| ==>
      r[k] == if IsBracket(code[k]) && code[k] != open && code[k] != CloserOf(open) then ' ' else code[k]
    ensures (forall k :: 0 <= k < |code| && IsBracket(code[k]) ==> code[k] == open || code[k] == CloserOf(open)) ==> r == code
  {
    seq(|code|, k requires 0 <= k < |code| =>
      if IsBracket(code[k]) && code[k] != open && code[k] != CloserOf(open) then ' ' else code[k])
  }

  lemma {:induction false} SameDepth(code: string, lo: nat, hi: nat)
    requires lo <= hi <= |code|
    ensures Depth(OnlyKind(code, '('), lo, hi) == Depth(code, lo, hi)
  {
    if lo < hi { SameDepth(code, lo, hi - 1); }
  }

  /** On any text, balanced or not, the depth counter finds the partner that the stack finds once
      the brackets of other kinds are blotted out. */
  lemma CloseIsPartner(code: string, p: nat, i: nat)
    requires p < |code| && code[p] == '('
    ensures
      var pairs := Matching(OnlyKind(code, '('));
      ClosesAt(code, p, i) <==> p in pairs && pairs[p] == i
  {
    var parens := OnlyKind(code, '(');
    forall k | p <= k < |code| ensures Zero(parens, p, k) <==> Zero(code, p, k) {
      hide Depth;
      SameDepth(code, p, k + 1);
    }
    hide Zero, Matching;
    assert ClosesAt(parens, p, i) <==> ClosesAt(code, p, i);
    CloseIsOnlyPartner(parens, p, i);
  }

  lemma {:induction false} FirstZero(code: string, p: nat, z: nat) returns (first: nat)
    requires p <= z < |code| && Zero(code, p, z)
    ensures ClosesAt(code, p, first)
    decreases z
  {
    if k: nat :| p <= k < z && Zero(code, p, k) {
      first := FirstZero(code, p, k);
    } else {
      first := z;
    }
  }

  // ---- agreement on well-bracketed text of all kinds ----

  lemma {:induction false} DepthSplit(code: string, a: nat, b: nat, c: nat)
    requires a <= b <= c <= |code|
    ensures Depth(code, a, c) == Depth(code, a, b) + Depth(code, b, c)
    decreases c
  {
    if b < c { DepthSplit(code, a, b, c - 1); }
  }

  /** The depth counted from `lo` never dips below zero up to `hi`, where it is zero. */
  ghost predicate Level(code: string, lo: nat, hi: nat)
    requires lo <= hi <= |code|
  {
    Depth(code, lo, hi) == 0 && forall n :: lo <= n <= hi ==> Depth(code, lo, n) >= 0
  }

  lemma LevelGroup(code: string, at: nat, close: nat, end: nat)
    requires at < close < end <= |code| && IsOpener(code[at]) && code[close] == CloserOf(code[at])
    requires Level(code, at + 1, close) && Level(code, close + 1, end)
    ensures Level(code, at, end)
  {
    BracketWeights(code[at]);
    hide Weight, CloserOf;
    assert Depth(code, at, at) == 0;
    DepthSplit(code, at, at + 1, close);
    assert Depth(code, at, close + 1) == 0;
    forall n | at <= n <= end ensures Depth(code, at, n) >= 0 {
      if at < n <= close { DepthSplit(code, at, at + 1, n); }
      else if close < n { DepthSplit(code, at, close + 1, n); }
    }
    DepthSplit(code, at, close + 1, end);
  }

  /** A well-bracketed stretch is level. */
  lemma {:induction false} FormIsLevel(code: string, f: Form, at: nat)
    requires f.Valid() && Holds(code, f, at)
    ensures Level(code, at, at + |f.Text()|)
    decreases f
  {
    hide Holds, Level;
    match f
    case Nil =>
      HoldsWithin(code, f, at);
      NothingIsLevel(code, at);
    case Plain(c, rest) =>
      HoldsPlain(code, f, at);
      HoldsWithin(code, f, at);
      FormIsLevel(code, rest, at + 1);
      LevelPlain(code, at, at + |f.Text()|);
    case Group(open, body, rest) =>
      HoldsGroup(code, f, at);
      HoldsWithin(code, f, at);
      var close := at + 1 + |body.Text()|;
      FormIsLevel(code, body, at + 1);
      FormIsLevel(code, rest, close + 1);
      LevelGroup(code, at, close, at + |f.Text()|);
  }

  lemma NothingIsLevel(code: string, at: nat)
    requires at <= |code|
    ensures Level(code, at, at)
  {}

  lemma LevelPlain(code: string, at: nat, end: nat)
    requires at < end <= |code| && !IsBracket(code[at]) && Level(code, at + 1, end)
    ensures Level(code, at, end)
  {
    forall n | at < n <= end ensures Depth(code, at, n) == Depth(code, at + 1, n) {
      DepthSplit(code, at, at + 1, n);
    }
  }

  lemma BracketWeights(open: char)
    requires IsOpener(open)
    ensures Weight(open) >= 0 && Weight(open) + Weight(CloserOf(open)) == 0
  {}

  lemma GroupCloses(code: string, f: Form, at: nat)
    requires f.Valid() && Holds(code, f, at) && f.Group? && f.open == '('
    ensures ClosesAt(code, at, at + 1 + |f.body.Text()|)
  {
    HoldsGroup(code, f, at);
    var close := at + 1 + |f.body.Text()|;
    FormIsLevel(code, f.body, at + 1);
    DepthSplit(code, at, at + 1, close);
    assert Depth(code, at, at + 1) == 1;
    forall k | at <= k < close ensures !Zero(code, at, k) {
      if k > at { DepthSplit(code, at, at + 1, k + 1); }
    }
  }

  lemma {:induction false} PartnerCloses(code: string, f: Form, at: nat, p: nat)
    requires f.Valid() && Holds(code, f, at)
    requires p in f.Pairs(at) && p < |code| && code[p] == '('
    ensures ClosesAt(code, p, f.Pairs(at)[p])
    decreases f
  {
    hide Holds, ClosesAt;
    match f
    case Plain(c, rest) =>
      HoldsPlain(code, f, at);
      PartnerCloses(code, rest, at + 1, p);
    case Group(open, body, rest) =>
      HoldsGroup(code, f, at);
      GroupPairs(f, at);
      var close := at + 1 + |body.Text()|;
      if p == at { GroupCloses(code, f, at); }
      else if p in body.Pairs(at + 1) { PartnerCloses(code, body, at + 1, p); }
      else { PartnerCloses(code, rest, close + 1, p); }
  }

  /** On well-bracketed text, whatever other brackets it holds, the depth counter finds the
      partner of every `(`. */
  lemma CloseIsPartnerWhenBalanced(code: string, p: nat)
    requires WellBracketed(code) && p < |code| && code[p] == '('
    ensures p in Matching(code) && ClosesAt(code, p, Matching(code)[p])
  {
    var f: Form :| f.Valid() && f.Text() == code;
    MatchingOfForm(f);
    FormIsMatched(code, f, 0, p);
    PartnerCloses(code, f, 0, p);
  }

  // ---- brace pairs ----

  function BraceStep(code: string, k: nat, st: Scan): Scan
    requires k < |code|
  {
    if code[k] == '{' then st.(stack := st.stack + [k])
    else if code[k] == '}' && st.stack != [] then
      Scan(st.stack[..|st.stack| - 1], st.pairs[st.stack[|st.stack| - 1] := k])
    else st
  }

  function BraceScan(code: string, n: nat): Scan
    requires n <= |code|
  {
    if n == 0 then Scan([], map[]) else BraceStep(code, n - 1, BraceScan(code, n - 1))
  }

  method BracePairs(code: string) returns (pairs: map<nat, nat>)
    ensures pairs == Matching(OnlyKind(code, '{'))
  {
    hide Matching;
    pairs := map[];
    var stack: seq<nat> := [];
    for k := 0 to |code|
      invariant Scan(stack, pairs) == BraceScan(code, k)
    {
      if code[k] == '{' {
        stack := stack + [k];
      } else if code[k] == '}' && stack != [] {
        pairs := pairs[stack[|stack| - 1] := k];
        stack := stack[..|stack| - 1];
      }
    }
    BracePairsAgree(code);
  }

  ghost predicate BracesOnly(code: string) {
    forall k :: 0 <= k < |code| && IsBracket(code[k]) ==> code[k] == '{' || code[k] == '}'
  }

  lemma {:induction false} BraceScanIsScan(code: string, n: nat)
    requires BracesOnly(code) && n <= |code|
    ensures BraceScan(code, n) == ScanTo(code, n)
  {
    if n > 0 {
      BraceScanIsScan(code, n - 1);
      ScanIsSound(code, n - 1);
      BraceStepIsStep(code, n - 1, ScanTo(code, n - 1));
    }
  }

  lemma BraceStepIsStep(code: string, k: nat, st: Scan)
    requires BracesOnly(code) && k < |code| && Under(st.stack, k) && StackOutside(code, st, k)
    ensures BraceStep(code, k, st) == Step(code, k, st)
  {
    forall j | 0 <= j < |st.stack| ensures code[st.stack[j]] == '{' { assert IsOpener(code[st.stack[j]]); }
  }

  lemma {:induction false} SameBraces(code: string, n: nat)
    requires n <= |code|
    ensures BraceScan(OnlyKind(code, '{'), n) == BraceScan(code, n)
  {
    if n > 0 { SameBraces(code, n - 1); }
  }

  /** On any text, balanced or not, the brace scan makes the pairs that the typed one makes once the
      brackets of other kinds are blotted out. */
  lemma BracePairsAgree(code: string)
    ensures BraceScan(code, |code|).pairs == Matching(OnlyKind(code, '{'))
  {
    SameBraces(code, |code|);
    BraceScanIsScan(OnlyKind(code, '{'), |code|);
  }

  /** The pairs that open with a brace. */
  ghost function Braces(code: string, pairs: map<nat, nat>): map<nat, nat> {
    map a | a in pairs && a < |code| && code[a] == '{' :: pairs[a]
  }

  ghost predicate BraceAdds(code: string, at: nat, end: nat, pairs: map<nat, nat>)
    requires at <= end <= |code|
  {
    BraceScan(code, end) == Scan(BraceScan(code, at).stack, BraceScan(code, at).pairs + Braces(code, pairs))
  }

  lemma BracesOfGroup(code: string, at: nat, close: nat, inner: map<nat, nat>, outer: map<nat, nat>)
    requires at < |code| && at !in inner
    ensures Braces(code, inner[at := close] + outer) ==
      (if code[at] == '{' then Braces(code, inner)[at := close] else Braces(code, inner)) + Braces(code, outer)
  {}

  lemma BraceGroup(code: string, at: nat, close: nat, end: nat, inner: map<nat, nat>, outer: map<nat, nat>)
    requires at < close < end <= |code| && IsOpener(code[at]) && code[close] == CloserOf(code[at])
    requires BraceAdds(code, at + 1, close, inner) && BraceAdds(code, close + 1, end, outer)
    requires at !in inner
    ensures BraceAdds(code, at, end, inner[at := close] + outer)
  {
    hide Braces;
    var before := BraceScan(code, at);
    var x, y := Braces(code, inner), Braces(code, outer);
    BracesOfGroup(code, at, close, inner, outer);
    assert BraceScan(code, at + 1) == BraceStep(code, at, before);
    assert BraceScan(code, close + 1) == BraceStep(code, close, BraceScan(code, close));
    if code[at] == '{' {
      var full := before.stack + [at];
      assert full[|full| - 1] == at && full[..|full| - 1] == before.stack;
      UnionOfGroup(before.pairs, x, y, at, close);
    } else {
      assert before.pairs + (x + y) == before.pairs + x + y;
    }
  }

  lemma BraceNothing(code: string, at: nat)
    requires at <= |code|
    ensures BraceAdds(code, at, at, map[])
  {
    assert Braces(code, map[]) == map[];
    assert BraceScan(code, at).pairs + map[] == BraceScan(code, at).pairs;
  }

  lemma BracePlain(code: string, at: nat, end: nat, pairs: map<nat, nat>)
    requires at < end <= |code| && !IsBracket(code[at]) && BraceAdds(code, at + 1, end, pairs)
    ensures BraceAdds(code, at, end, pairs)
  {
    assert BraceScan(code, at + 1) == BraceScan(code, at);
  }

  lemma {:induction false} BraceForm(code: string, f: Form, at: nat)
    requires f.Valid() && Holds(code, f, at)
    ensures BraceAdds(code, at, at + |f.Text()|, f.Pairs(at))
    decreases f
  {
    hide BraceScan, BraceAdds, Holds;
    HoldsWithin(code, f, at);
    match f
    case Nil =>
      BraceNothing(code, at);
    case Plain(c, rest) =>
      HoldsPlain(code, f, at);
      BraceForm(code, rest, at + 1);
      BracePlain(code, at, at + |f.Text()|, rest.Pairs(at + 1));
    case Group(open, body, rest) =>
      HoldsGroup(code, f, at);
      var close := at + 1 + |body.Text()|;
      BraceForm(code, body, at + 1);
      BraceForm(code, rest, close + 1);
      PairsWithin(body, at + 1);
      BraceGroup(code, at, close, at + |f.Text()|, body.Pairs(at + 1), rest.Pairs(close + 1));
  }

  /** On well-bracketed text of all kinds, the brace scanner makes exactly the typed matcher's
      pairs that open with a brace. */
  lemma BracePairsAgreeWhenBalanced(code: string)
    requires WellBracketed(code)
    ensures BraceScan(code, |code|).pairs == Braces(code, Matching(code))
  {
    hide BraceScan, Braces, BraceAdds, Matching, Holds, Form.Text, Form.Pairs;
    var f: Form :| f.Valid() && f.Text() == code;
    MatchingOfForm(f);
    HoldsItself(f);
    BraceForm(code, f, 0);
    BraceScanFromStart(code, f.Pairs(0));
  }

  lemma BraceScanFromStart(code: string, pairs: map<nat, nat>)
    requires BraceAdds(code, 0, |code|, pairs)
    ensures BraceScan(code, |code|).pairs == Braces(code, pairs)
  {
    assert BraceScan(code, 0).pairs + Braces(code, pairs) == Braces(code, pairs);
  }

  // ---- splitting arguments ----

  /** Opening minus closing brackets, of any kind, in the first `n` characters. */
  function Nest(text: string, n: nat): int
    requires n <= |text|
  {
    if n == 0 then 0
    else Nest(text, n - 1) + if IsOpener(text[n - 1]) then 1 else if IsCloser(text[n - 1]) then -1 else 0
  }

  predicate TopComma(text: string, k: nat)
    requires k < |text|
  {
    text[k] == ',' && Nest(text, k) == 0
  }

  datatype Cut = Cut(parts: seq<string>, start: nat)

  /** The parts that end at the top-level commas among the first `n` characters. */
  function CutTo(text: string, n: nat): (c: Cut)
    requires n <= |text|
    ensures c.start <= n && Nest(text, c.start) == 0
  {
    if n == 0 then Cut([], 0)
    else
      var c := CutTo(text, n - 1);
      if TopComma(text, n - 1) then Cut(c.parts + [text[c.start..n - 1]], n) else c
  }

  /** All parts, blank ones included. */
  function RawParts(text: string): (r: seq<string>)
    ensures r != []
  {
    var c := CutTo(text, |text|);
    c.parts + [text[c.start..]]
  }

  predicate Blank(s: string) { Strip(s) == "" }

  function NonBlank(parts: seq<string>): seq<string> {
    if parts == [] then []
    else
      var k := |parts| - 1;
      if Blank(parts[k]) then NonBlank(parts[..k]) else NonBlank(parts[..k]) + [parts[k]]
  }

  method SplitTopLevel(text: string) returns (r: seq<string>)
    ensures r == NonBlank(RawParts(text))
    ensures forall part :: part in r ==> !AllSpace(part)
    ensures forall i: nat, k: nat :: Pocket(text, i, k) && Balance(text, i) != -1 ==> InOne(r, text[i..k + 1])
  {
    hide Pocket, Strip, InOne, RawParts;
    var parts: seq<string> := [];
    var depth := 0;
    var start := 0;
    for k := 0 to |text|
      invariant start <= k && depth == Nest(text, k) && Cut(parts, start) == CutTo(text, k)
    {
      var ch := text[k];
      if IsOpener(ch) { depth := depth + 1; }
      else if IsCloser(ch) { depth := depth - 1; }
      else if ch == ',' && depth == 0 {
        parts := parts + [text[start..k]];
        start := k + 1;
      }
    }
    parts := parts + [text[start..]];
    r := [];
    for i := 0 to |parts|
      invariant r == NonBlank(parts[..i])
    {
      assert parts[..i + 1][..i] == parts[..i];
      if !Blank(parts[i]) { r := r + [parts[i]]; }
    }
    assert parts[..|parts|] == parts;
    RawPartsAre(text, parts, start);
    NonBlankIsNotSpace(parts);
    PocketsAreInOne(text);
  }

  lemma PocketsAreInOne(text: string)
    ensures forall i: nat, k: nat :: Pocket(text, i, k) && Balance(text, i) != -1 ==>
      InOne(NonBlank(RawParts(text)), text[i..k + 1])
  {
    hide InOne, NonBlank, RawParts;
    forall i: nat, k: nat | Pocket(text, i, k) && Balance(text, i) != -1
      ensures InOne(NonBlank(RawParts(text)), text[i..k + 1])
    {
      PocketIsInOne(text, i, k);
    }
  }

  lemma RawPartsAre(text: string, parts: seq<string>, start: nat)
    requires start <= |text| && parts != [] && Cut(parts[..|parts| - 1], start) == CutTo(text, |text|)
    requires parts[|parts| - 1] == text[start..]
    ensures parts == RawParts(text)
  {}

  // ---- what a bracket keeps together, in plain terms ----

  /** Opening minus closing brackets among the first `n` characters. */
  function Balance(text: string, n: nat): int
    requires n <= |text|
  {
    if n == 0 then 0
    else
      var c := text[n - 1];
      Balance(text, n - 1) + if c == '(' || c == '[' || c == '{' then 1 else if c == ')' || c == ']' || c == '}' then -1 else 0
  }

  lemma {:induction false} NestIsBalance(text: string, n: nat)
    requires n <= |text|
    ensures Nest(text, n) == Balance(text, n)
  {
    if n > 0 { NestIsBalance(text, n - 1); }
  }

  /** The piece stands in one of the parts. */
  ghost predicate InOne(parts: seq<string>, piece: string) {
    exists q: nat, o: nat :: q < |parts| && StandsAt(parts[q], o, piece)
  }

  ghost predicate StandsAt(part: string, o: nat, piece: string) {
    o + |piece| <= |part| && part[o..o + |piece|] == piece
  }

  lemma {:induction false} BalanceInPocket(text: string, i: nat, k: nat, n: nat)
    requires Pocket(text, i, k) && i < n <= k
    ensures Balance(text, n) == Balance(text, i) + 1
  {
    if n > i + 1 {
      BalanceInPocket(text, i, k, n - 1);
      assert NoBracket(text[n - 1]);
    }
  }

  /** A comma between an opening bracket and its closing one is a cut exactly when one more bracket
      was closed than opened before them. */
  lemma CommaInPocketIff(text: string, i: nat, k: nat, j: nat)
    requires Pocket(text, i, k) && i < j < k && text[j] == ','
    ensures TopComma(text, j) <==> Balance(text, i) == -1
  {
    NestIsBalance(text, j);
    BalanceInPocket(text, i, k, j);
  }

  /** From `i` to `e` there is no cut. */
  ghost predicate Uncut(text: string, i: nat, e: nat)
    requires e <= |text|
  {
    forall j :: i <= j < e ==> !TopComma(text, j)
  }

  lemma {:induction false} StartIsBefore(text: string, i: nat, e: nat)
    requires i <= e <= |text| && Uncut(text, i, e)
    ensures CutTo(text, e).start <= i
  {
    if e > i { StartIsBefore(text, i, e - 1); }
  }

  lemma {:induction false} UncutIsInOne(text: string, i: nat, e: nat, n: nat)
    requires i <= e <= n <= |text| && Uncut(text, i, e)
    ensures CutTo(text, n).start <= i || InOne(CutTo(text, n).parts, text[i..e])
  {
    hide TopComma;
    if n == e {
      StartIsBefore(text, i, e);
    } else {
      UncutIsInOne(text, i, e, n - 1);
      var b, c := CutTo(text, n - 1), CutTo(text, n);
      CutNext(text, n - 1);
      hide CutTo;
      if TopComma(text, n - 1) {
        if b.start <= i {
          PieceOfSlice(text, b.start, n - 1, i, e);
          assert c.parts[|b.parts|] == text[b.start..n - 1];
        } else {
          var q: nat, o: nat :| q < |b.parts| && StandsAt(b.parts[q], o, text[i..e]);
          assert c.parts[q] == b.parts[q];
        }
      }
    }
  }

  lemma PieceOfSlice(text: string, a: nat, b: nat, i: nat, e: nat)
    requires a <= i <= e <= b <= |text|
    ensures StandsAt(text[a..b], i - a, text[i..e])
  {
    var part, piece := text[a..b], text[i..e];
    forall t | 0 <= t < e - i ensures part[i - a..i - a + |piece|][t] == piece[t] {
      assert part[i - a + t] == text[i + t];
    }
  }

  lemma UncutIsInAPart(text: string, i: nat, e: nat)
    requires i <= e <= |text| && Uncut(text, i, e)
    ensures InOne(RawParts(text), text[i..e])
  {
    UncutIsInOne(text, i, e, |text|);
    var c := CutTo(text, |text|);
    hide CutTo, Uncut;
    var parts := RawParts(text);
    if c.start <= i {
      PieceOfSlice(text, c.start, |text|, i, e);
      assert parts[|c.parts|] == text[c.start..|text|];
    } else {
      var q: nat, o: nat :| q < |c.parts| && StandsAt(c.parts[q], o, text[i..e]);
      assert parts[q] == c.parts[q];
    }
  }

  lemma {:induction false} NonBlankIsNotSpace(parts: seq<string>)
    ensures forall part :: part in NonBlank(parts) <==> part in parts && !Blank(part)
    ensures forall part :: part in NonBlank(parts) ==> !AllSpace(part)
  {
    if parts != [] {
      var k := |parts| - 1;
      NonBlankIsNotSpace(parts[..k]);
      assert parts == parts[..k] + [parts[k]];
    }
    forall part ensures Blank(part) <==> AllSpace(part) { BlankIsSpace(part); }
  }

  lemma BlankIsSpace(part: string)
    ensures Blank(part) <==> AllSpace(part)
  {
    StripCuts(part);
    hide Strip;
    var a, b :| part == a + Strip(part) + b && AllSpace(a) && AllSpace(b);
    if Strip(part) == "" {
      assert part == a + b;
    } else {
      assert part[|a|] == Strip(part)[0];
    }
  }

  lemma PocketIsInOne(text: string, i: nat, k: nat)
    requires Pocket(text, i, k) && Balance(text, i) != -1
    ensures InOne(NonBlank(RawParts(text)), text[i..k + 1])
  {
    forall j | i <= j < k + 1 ensures !TopComma(text, j) {
      if text[j] == ',' { CommaInPocketIff(text, i, k, j); }
    }
    UncutIsInAPart(text, i, k + 1);
    hide RawParts, Nest, TopComma;
    KeptWithBracket(RawParts(text), text[i..k + 1]);
  }

  lemma KeptWithBracket(parts: seq<string>, piece: string)
    requires InOne(parts, piece) && piece != "" && !IsSpace(piece[0])
    ensures InOne(NonBlank(parts), piece)
  {
    var q: nat, o: nat :| q < |parts| && StandsAt(parts[q], o, piece);
    NonBlankIsNotSpace(parts);
    BlankIsSpace(parts[q]);
    assert parts[q][o] == piece[0];
    hide NonBlank, Blank;
    var n :| 0 <= n < |NonBlank(parts)| && NonBlank(parts)[n] == parts[q];
  }

  /** A closing bracket too many makes the next bracket's commas cuts. */
  lemma UnopenedCloserCuts()
    ensures RawParts("),(a,b)") == ["),(a", "b)"]
  {
    var t := "),(a,b)";
    assert Nest(t, 1) == -1 && Nest(t, 2) == -1;
    assert Nest(t, 3) == 0 && Nest(t, 4) == 0;
    assert Nest(t, 5) == 0 && Nest(t, 6) == 0;
    CutNext(t, 0);
    CutNext(t, 1);
    CutNext(t, 2);
    CutNext(t, 3);
    CutNext(t, 4);
    CutNext(t, 5);
    CutNext(t, 6);
    assert CutTo(t, 0) == Cut([], 0);
    hide CutTo, Nest;
    assert t[0..4] == "),(a" && t[5..] == "b)";
  }

  function JoinCommas(parts: seq<string>): string
    requires parts != []
  {
    var k := |parts| - 1;
    if k == 0 then parts[0] else JoinCommas(parts[..k]) + "," + parts[k]
  }

  lemma {:induction false} CutLosesNothing(text: string, n: nat)
    requires n <= |text|
    ensures
      var c := CutTo(text, n);
      JoinCommas(c.parts + [text[c.start..n]]) == text[..n]
  {
    hide JoinCommas, CutTo, TopComma, Nest;
    if n == 0 {
      NoTextToLose(text);
    } else {
      CutLosesNothing(text, n - 1);
      CutKeepsText(text, n - 1);
    }
  }

  lemma NoTextToLose(text: string)
    ensures
      var c := CutTo(text, 0);
      JoinCommas(c.parts + [text[c.start..0]]) == text[..0]
  {
    assert [] + [text[0..0]] == [""];
  }

  lemma CutKeepsText(text: string, n: nat)
    requires n < |text| && JoinCommas(CutTo(text, n).parts + [text[CutTo(text, n).start..n]]) == text[..n]
    ensures
      var c := CutTo(text, n + 1);
      JoinCommas(c.parts + [text[c.start..n + 1]]) == text[..n + 1]
  {
    var b := CutTo(text, n);
    CutNext(text, n);
    OneMore(text, b.start, n);
    hide JoinCommas, TopComma, CutTo;
    if TopComma(text, n) {
      JoinEmpty(b.parts + [text[b.start..n]]);
    } else {
      JoinLast(b.parts, text[b.start..n], [text[n]]);
    }
  }

  lemma OneMore(text: string, start: nat, n: nat)
    requires start <= n < |text|
    ensures text[..n + 1] == text[..n] + [text[n]] && text[start..n + 1] == text[start..n] + [text[n]]
    ensures text[n + 1..n + 1] == ""
  {}

  lemma CutNext(text: string, n: nat)
    requires n < |text|
    ensures
      var b, c := CutTo(text, n), CutTo(text, n + 1);
      if TopComma(text, n) then text[n] == ',' && c.start == n + 1 && c.parts == b.parts + [text[b.start..n]] else c == b
  {}

  lemma JoinEmpty(parts: seq<string>)
    requires parts != []
    ensures JoinCommas(parts + [""]) == JoinCommas(parts) + ","
  {
    assert (parts + [""])[..|parts|] == parts;
    assert JoinCommas(parts) + "," + "" == JoinCommas(parts) + ",";
  }

  lemma JoinLast(front: seq<string>, x: string, y: string)
    ensures JoinCommas(front + [x + y]) == JoinCommas(front + [x]) + y
  {
    assert (front + [x])[..|front|] == front && (front + [x + y])[..|front|] == front;
    if front != [] {
      assert JoinCommas(front) + "," + (x + y) == JoinCommas(front) + "," + x + y;
    }
  }

  lemma {:induction false} NestSplit(text: string, a: nat, n: nat)
    requires a + n <= |text|
    ensures Nest(text, a + n) == Nest(text, a) + Nest(text[a..a + n], n)
  {
    if n > 0 {
      NestSplit(text, a, n - 1);
      NestOfPrefix(text[a..a + n], text[a..a + n - 1], n - 1);
    }
  }

  lemma {:induction false} NestOfPrefix(s: string, t: string, n: nat)
    requires n <= |s| && n <= |t| && s[..n] == t[..n]
    ensures Nest(s, n) == Nest(t, n)
  {
    if n > 0 {
      assert s[n - 1] == s[..n][n - 1] && t[n - 1] == t[..n][n - 1];
      assert s[..n - 1] == s[..n][..n - 1] && t[..n - 1] == t[..n][..n - 1];
      NestOfPrefix(s, t, n - 1);
    }
  }

  ghost predicate Atomic(part: string) {
    forall k: nat :: k < |part| ==> !TopComma(part, k)
  }

  lemma PieceIsAtomic(text: string, a: nat, b: nat)
    requires a <= b <= |text| && Nest(text, a) == 0
    requires forall k: nat :: a <= k < b ==> !TopComma(text, k)
    ensures Atomic(text[a..b])
  {
    var part := text[a..b];
    forall k: nat | k < |part| ensures !TopComma(part, k) {
      assert !TopComma(text, a + k);
      NestSplit(text, a, k);
      NestOfPrefix(part, text[a..a + k], k);
    }
  }

  /** Every bracket a part opens it closes, and the other way round, counted together. */
  ghost predicate LevelPart(part: string) {
    Nest(part, |part|) == 0
  }

  lemma PieceIsLevel(text: string, a: nat, b: nat)
    requires a <= b <= |text| && Nest(text, a) == 0 && Nest(text, b) == 0
    ensures LevelPart(text[a..b])
  {
    NestSplit(text, a, b - a);
  }

  lemma {:induction false} CutIsFinest(text: string, n: nat)
    requires n <= |text|
    ensures
      var c := CutTo(text, n);
      && (forall i :: 0 <= i < |c.parts| ==> Atomic(c.parts[i]) && LevelPart(c.parts[i]))
      && (forall k: nat :: c.start <= k < n ==> !TopComma(text, k))
  {
    if n > 0 {
      CutIsFinest(text, n - 1);
      var b := CutTo(text, n - 1);
      if TopComma(text, n - 1) {
        PieceIsAtomic(text, b.start, n - 1);
        PieceIsLevel(text, b.start, n - 1);
      }
    }
  }

  /** None of the parts can be split further, and none but the last ends inside a bracket. */
  ghost predicate Fits(parts: seq<string>) {
    && parts != []
    && (forall i :: 0 <= i < |parts| ==> Atomic(parts[i]))
    && (forall i :: 0 <= i < |parts| - 1 ==> LevelPart(parts[i]))
  }

  /** And nothing of the text is lost but the commas between them. */
  ghost predicate FinestCut(text: string, parts: seq<string>) {
    Fits(parts) && JoinCommas(parts) == text
  }

  lemma PartsAreFine(text: string)
    ensures FinestCut(text, RawParts(text))
  {
    var c := CutTo(text, |text|);
    CutLosesNothing(text, |text|);
    assert text[..|text|] == text && text[c.start..|text|] == text[c.start..];
    CutIsFinest(text, |text|);
    PieceIsAtomic(text, c.start, |text|);
  }

  lemma {:induction false} CutOfPrefix(s: string, t: string, n: nat)
    requires n <= |s| && n <= |t| && s[..n] == t[..n]
    ensures CutTo(s, n) == CutTo(t, n)
  {
    if n > 0 {
      assert s[..n - 1] == s[..n][..n - 1] && t[..n - 1] == t[..n][..n - 1];
      CutOfPrefix(s, t, n - 1);
      NestOfPrefix(s, t, n - 1);
      assert s[n - 1] == s[..n][n - 1] && t[n - 1] == t[..n][n - 1];
      var c := CutTo(s, n - 1);
      assert s[c.start..n - 1] == s[..n][c.start..n - 1] == t[c.start..n - 1];
    }
  }

  /** An atomic stretch after a cut adds no cut. */
  lemma {:induction false} NoCutWithin(text: string, a: nat, n: nat)
    requires a + n <= |text| && Nest(text, a) == 0 && Atomic(text[a..])
    ensures CutTo(text, a + n) == CutTo(text, a)
  {
    if n > 0 {
      NoCutWithin(text, a, n - 1);
      var k: nat := n - 1;
      assert !TopComma(text[a..], k);
      NestSplit(text, a, k);
      NestOfPrefix(text[a..], text[a..a + k], k);
    }
  }

  lemma CutAtJoint(done: seq<string>, last: string, start: nat, front: string, x: string)
    requires start + |last| == |front| && front[start..] == last && LevelPart(last)
    requires CutTo(front, |front|) == Cut(done, start)
    ensures
      var text := front + "," + x;
      CutTo(text, |front| + 1) == Cut(done + [last], |front| + 1) && Nest(text, |front| + 1) == 0
  {
    var n, text := |front|, front + "," + x;
    AtJoint(front, x, start);
    EndsLevel(front, start, last);
    hide CutTo, Nest, LevelPart;
    CutOfPrefix(text, front, n);
    NestOfPrefix(text, front, n);
    CutNext(text, n);
  }

  lemma EndsLevel(front: string, start: nat, last: string)
    requires start + |last| == |front| && front[start..] == last && LevelPart(last) && Nest(front, start) == 0
    ensures Nest(front, |front|) == 0
  {
    hide Nest;
    assert front[start..|front|] == last;
    NestSplit(front, start, |last|);
  }

  lemma AtJoint(front: string, x: string, start: nat)
    requires start <= |front|
    ensures
      var n, text := |front|, front + "," + x;
      && n < |text| && text[..n] == front[..n] && text[n] == ','
      && text[start..n] == front[start..] && front[start..n] == front[start..]
  {}

  lemma CutOfOneMore(done: seq<string>, last: string, start: nat, front: string, x: string)
    requires start + |last| == |front| && front[start..] == last && LevelPart(last) && Atomic(x)
    requires CutTo(front, |front|) == Cut(done, start)
    ensures
      var text := front + "," + x;
      CutTo(text, |text|) == Cut(done + [last], |front| + 1)
  {
    hide CutTo, Nest, Atomic, LevelPart;
    var text := front + "," + x;
    CutAtJoint(done, last, start, front, x);
    assert text[|front| + 1..] == x;
    NoCutWithin(text, |front| + 1, |x|);
  }

  /** The cut of the joined parts is where they were joined. */
  lemma {:induction false} CutOfJoined(parts: seq<string>)
    requires Fits(parts)
    ensures EndsIn(parts, JoinCommas(parts))
  {
    var k, text := |parts| - 1, JoinCommas(parts);
    hide CutTo, Nest, Atomic, LevelPart, EndsIn;
    if k == 0 {
      EndsInOnly(parts, text);
    } else {
      CutOfJoined(parts[..k]);
      EndsInNext(parts[..k], JoinCommas(parts[..k]), parts[k]);
      assert parts[..k] + [parts[k]] == parts;
    }
  }

  lemma EndsInNext(parts: seq<string>, text: string, x: string)
    requires parts != [] && EndsIn(parts, text) && LevelPart(parts[|parts| - 1]) && Atomic(x)
    ensures EndsIn(parts + [x], text + "," + x)
  {
    hide CutTo, Nest, Atomic, LevelPart;
    var k := |parts| - 1;
    CutOfOneMore(parts[..k], parts[k], |text| - |parts[k]|, text, x);
    assert parts[..k] + [parts[k]] == parts && (parts + [x])[..k + 1] == parts;
  }

  /** The text ends in the last part, and the other parts have been cut off before it. */
  ghost predicate EndsIn(parts: seq<string>, text: string)
    requires parts != []
  {
    var k := |parts| - 1;
    && |parts[k]| <= |text| && text[|text| - |parts[k]|..] == parts[k]
    && CutTo(text, |text|) == Cut(parts[..k], |text| - |parts[k]|)
  }

  lemma EndsInOnly(parts: seq<string>, text: string)
    requires parts == [text] && Atomic(text)
    ensures EndsIn(parts, text)
  {
    hide CutTo, Nest, Atomic;
    assert text[0..] == text && parts[..0] == [] && parts[0] == text;
    NothingCut(text);
    NoCutWithin(text, 0, |text|);
    hide JoinCommas, TopComma;
  }

  lemma NothingCut(text: string)
    ensures CutTo(text, 0) == Cut([], 0) && Nest(text, 0) == 0
  {}

  /** The parts are the finest cut of the text at commas outside brackets, and the only one. */
  lemma PartsAreTheFinestCut(text: string, parts: seq<string>)
    ensures FinestCut(text, parts) <==> parts == RawParts(text)
  {
    PartsAreFine(text);
    if FinestCut(text, parts) {
      CutOfJoined(parts);
      assert parts == parts[..|parts| - 1] + [parts[|parts| - 1]];
    }
  }
}
