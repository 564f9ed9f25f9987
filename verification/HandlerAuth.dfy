/** Typed bracket matching with recovery from mismatches (src/attackmap/handler_auth.py). */
module HandlerAuth {

  predicate IsOpener(c: char) { c == '(' || c == '[' || c == '{' }

  predicate IsCloser(c: char) { c == ')' || c == ']' || c == '}' }

  predicate IsBracket(c: char) { IsOpener(c) || IsCloser(c) }

  function OpenerOf(c: char): char
    requires IsCloser(c)
  {
    if c == ')' then '(' else if c == ']' then '[' else '{'
  }

  function CloserOf(c: char): char
    requires IsOpener(c)
  {
    if c == '(' then ')' else if c == '[' then ']' else '}'
  }

  // ---- the scan, as a fold over the text ----

  datatype Scan = Scan(stack: seq<nat>, pairs: map<nat, nat>)

  ghost predicate Under(stack: seq<nat>, n: nat) {
    forall k :: 0 <= k < |stack| ==> stack[k] < n
  }

  /** The stack with mismatched openers dropped from its top. */
  function PopTo(code: string, stack: seq<nat>, opener: char): (r: seq<nat>)
    requires Under(stack, |code|)
    ensures r <= stack && (r != [] ==> code[r[|r| - 1]] == opener)
    ensures forall k :: |r| <= k < |stack| ==> code[stack[k]] != opener
  {
    if stack != [] && code[stack[|stack| - 1]] != opener then PopTo(code, stack[..|stack| - 1], opener) else stack
  }

  function Step(code: string, i: nat, st: Scan): (r: Scan)
    requires i < |code| && Under(st.stack, i)
    ensures Under(r.stack, i + 1)
  {
    var ch := code[i];
    if IsOpener(ch) then st.(stack := st.stack + [i])
    else if IsCloser(ch) then
      var kept := PopTo(code, st.stack, OpenerOf(ch));
      if kept == [] then st.(stack := [])
      else Scan(kept[..|kept| - 1], st.pairs[kept[|kept| - 1] := i])
    else st
  }

  function ScanTo(code: string, n: nat): (r: Scan)
    requires n <= |code|
    ensures Under(r.stack, n)
  {
    if n == 0 then Scan([], map[]) else Step(code, n - 1, ScanTo(code, n - 1))
  }

  /** Opening bracket offset to closing bracket offset. */
  function Matching(code: string): map<nat, nat> {
    ScanTo(code, |code|).pairs
  }

  method Matches(code: string) returns (pairs: map<nat, nat>)
    ensures pairs == Matching(code)
    ensures forall o :: o in pairs ==> o < pairs[o] < |code| && Kind(code[o], code[pairs[o]])
    ensures forall o: nat, c: nat :: Pocket(code, o, c) ==> o in pairs && pairs[o] == c
  {
    pairs := map[];
    var stack: seq<nat> := [];
    for i := 0 to |code|
      invariant Scan(stack, pairs) == ScanTo(code, i)
    {
      var ch := code[i];
      if IsOpener(ch) {
        stack := stack + [i];
      } else if IsCloser(ch) {
        ghost var before := stack;
        while stack != [] && code[stack[|stack| - 1]] != OpenerOf(ch)
          invariant Under(stack, |code|)
          invariant PopTo(code, stack, OpenerOf(ch)) == PopTo(code, before, OpenerOf(ch))
        {
          stack := stack[..|stack| - 1];
        }
        if stack != [] {
          pairs := pairs[stack[|stack| - 1] := i];
          stack := stack[..|stack| - 1];
        }
      }
    }
    MatchingIsSound(code);
    forall o | o in pairs ensures o < pairs[o] < |code| && Kind(code[o], code[pairs[o]]) {
      assert SameKind(code, o, pairs[o]);
    }
    forall o: nat, c: nat | Pocket(code, o, c) ensures o in pairs && pairs[o] == c { PocketIsPair(code, o, c); }
  }

  // ---- brackets, written out ----

  /** An opening bracket and the closing one of its kind. */
  predicate Kind(open: char, close: char) {
    (open == '(' && close == ')') || (open == '[' && close == ']') || (open == '{' && close == '}')
  }

  predicate NoBracket(c: char) {
    c != '(' && c != ')' && c != '[' && c != ']' && c != '{' && c != '}'
  }

  /** An opening bracket followed by no bracket but the closing one of its kind. */
  predicate Pocket(code: string, o: nat, c: nat) {
    o < c < |code| && Kind(code[o], code[c]) && forall k :: o < k < c ==> NoBracket(code[k])
  }

  lemma PocketIsPair(code: string, o: nat, c: nat)
    requires Pocket(code, o, c)
    ensures o in Matching(code) && Matching(code)[o] == c
  {
    var pairs := Matching(code);
    RecoveryDecides(code, pairs);
    IsDecided(code, pairs, c);
    hide Matching, Recovers;
    assert Waiting(code, pairs, o, c);
    forall q: nat | o < q && Waiting(code, pairs, q, c) ensures code[q] != code[o] { assert NoBracket(code[q]); }
    assert Latest(code, pairs, o, c);
    assert Pair(pairs, o, c);
  }

  // ---- what holds of any text ----

  ghost predicate SameKind(code: string, open: nat, close: nat) {
    open < close < |code| && IsOpener(code[open]) && code[close] == CloserOf(code[open])
  }

  /** Two pairs are disjoint or nested. */
  ghost predicate Apart(pairs: map<nat, nat>, a: nat, b: nat)
    requires a in pairs && b in pairs
  {
    pairs[a] < b || pairs[b] < pairs[a]
  }

  ghost predicate Sound(code: string, pairs: map<nat, nat>) {
    && (forall a :: a in pairs ==> SameKind(code, a, pairs[a]))
    && (forall a, b :: a in pairs && b in pairs && a < b ==> Apart(pairs, a, b))
  }

  /** Open brackets on the stack lie outside every recorded pair. */
  ghost predicate StackOutside(code: string, st: Scan, n: nat) {
    && (forall i, j :: 0 <= i < j < |st.stack| ==> st.stack[i] < st.stack[j])
    && n <= |code| && Under(st.stack, n)
    && (forall i :: 0 <= i < |st.stack| ==> IsOpener(code[st.stack[i]]) && st.stack[i] !in st.pairs)
    && (forall i, a :: 0 <= i < |st.stack| && a in st.pairs && a < st.stack[i] ==> st.pairs[a] < st.stack[i])
    && (forall a :: a in st.pairs ==> st.pairs[a] < n)
  }

  lemma {:induction false} ScanIsSound(code: string, n: nat)
    requires n <= |code|
    ensures Sound(code, ScanTo(code, n).pairs) && StackOutside(code, ScanTo(code, n), n)
  {
    hide Sound, StackOutside, Step;
    if n == 0 {
      NothingIsSound(code);
    } else {
      ScanIsSound(code, n - 1);
      StepIsSound(code, n - 1, ScanTo(code, n - 1));
    }
  }

  lemma NothingIsSound(code: string)
    ensures Sound(code, map[]) && StackOutside(code, Scan([], map[]), 0)
  {}

  lemma PushKeepsOutside(code: string, i: nat, st: Scan)
    requires i < |code| && Sound(code, st.pairs) && StackOutside(code, st, i) && IsOpener(code[i])
    ensures StackOutside(code, st.(stack := st.stack + [i]), i + 1)
  {}

  lemma DropKeepsOutside(code: string, i: nat, st: Scan, kept: seq<nat>)
    requires StackOutside(code, st, i) && kept <= st.stack
    ensures StackOutside(code, Scan(kept, st.pairs), i)
  {
    assert forall k :: 0 <= k < |kept| ==> kept[k] == st.stack[k];
  }

  lemma PairKeepsSound(code: string, i: nat, rest: seq<nat>, o: nat, pairs: map<nat, nat>)
    requires i < |code| && Sound(code, pairs) && StackOutside(code, Scan(rest + [o], pairs), i)
    requires o < i && IsOpener(code[o]) && code[i] == CloserOf(code[o])
    ensures Sound(code, pairs[o := i]) && StackOutside(code, Scan(rest, pairs[o := i]), i + 1)
  {
    var full := rest + [o];
    assert full[|rest|] == o;
    forall k | 0 <= k < |rest| ensures full[k] == rest[k] && rest[k] < o {}
    var more := pairs[o := i];
    forall a, b | a in more && b in more && a < b ensures Apart(more, a, b) {
      if a != o && b != o { assert Apart(pairs, a, b); }
    }
  }

  lemma OutsideLater(code: string, i: nat, st: Scan)
    requires i < |code| && StackOutside(code, st, i)
    ensures StackOutside(code, st, i + 1)
  {}

  lemma StepIsSound(code: string, i: nat, st: Scan)
    requires i < |code| && Under(st.stack, i) && Sound(code, st.pairs) && StackOutside(code, st, i)
    ensures Sound(code, Step(code, i, st).pairs) && StackOutside(code, Step(code, i, st), i + 1)
  {
    hide Sound, StackOutside, PopTo;
    OutsideLater(code, i, st);
    if IsOpener(code[i]) {
      PushKeepsOutside(code, i, st);
    } else if IsCloser(code[i]) {
      var kept := PopTo(code, st.stack, OpenerOf(code[i]));
      DropKeepsOutside(code, i, st, kept);
      OutsideLater(code, i, Scan(kept, st.pairs));
      if kept != [] {
        var o := kept[|kept| - 1];
        assert kept == kept[..|kept| - 1] + [o];
        PairKeepsSound(code, i, kept[..|kept| - 1], o, st.pairs);
      }
    }
  }

  /** For every text the pairs join same-kind brackets, share no bracket, and never cross. */
  lemma MatchingIsSound(code: string)
    ensures Sound(code, Matching(code))
    ensures forall a, b :: a in Matching(code) && b in Matching(code) && Matching(code)[a] == Matching(code)[b] ==> a == b
  {
    ScanIsSound(code, |code|);
    var pairs := Matching(code);
    forall a, b | a in pairs && b in pairs && pairs[a] == pairs[b] ensures a == b {
      assert a < b ==> Apart(pairs, a, b);
      assert b < a ==> Apart(pairs, b, a);
    }
  }

  // ---- recovery, on any text ----

  /** The closing bracket at `j` went to an opener after `o`. */
  ghost predicate TakenAbove(pairs: map<nat, nat>, o: nat, j: nat) {
    exists p: nat :: p in pairs && pairs[p] == j && o < p
  }

  /** Every closing bracket between `o` and `n` went to an opener after `o`. */
  ghost predicate Waiting(code: string, pairs: map<nat, nat>, o: nat, n: nat)
    requires n <= |code|
  {
    o < n && IsOpener(code[o]) && forall j :: o < j < n && IsCloser(code[j]) ==> TakenAbove(pairs, o, j)
  }

  /** `o` is the latest waiting opener of the kind that the closing bracket at `i` needs. */
  ghost predicate Latest(code: string, pairs: map<nat, nat>, o: nat, i: nat)
    requires i < |code| && IsCloser(code[i])
  {
    && Waiting(code, pairs, o, i) && code[o] == OpenerOf(code[i])
    && forall q: nat :: o < q && Waiting(code, pairs, q, i) ==> code[q] != code[o]
  }

  ghost predicate Pair(pairs: map<nat, nat>, o: nat, i: nat) {
    o in pairs && pairs[o] == i
  }

  ghost predicate DecidedAt(code: string, pairs: map<nat, nat>, i: nat)
    requires i < |code|
  {
    forall o: nat :: Pair(pairs, o, i) <==> IsCloser(code[i]) && Latest(code, pairs, o, i)
  }

  /** Each closing bracket takes the latest waiting opener of its kind, and with it drops every
      opener in between; one that finds none leaves no opener waiting. */
  ghost predicate Recovers(code: string, pairs: map<nat, nat>, n: nat)
    requires n <= |code|
  {
    (forall o: nat :: o in pairs ==> pairs[o] < n) && forall i :: 0 <= i < n ==> DecidedAt(code, pairs, i)
  }

  ghost predicate SameBefore(a: map<nat, nat>, b: map<nat, nat>, n: nat) {
    forall o: nat, i: nat :: i < n ==> (Pair(a, o, i) <==> Pair(b, o, i))
  }

  lemma SameTaken(a: map<nat, nat>, b: map<nat, nat>, n: nat, o: nat, j: nat)
    requires SameBefore(a, b, n) && j < n && TakenAbove(a, o, j)
    ensures TakenAbove(b, o, j)
  {
    var p: nat :| p in a && a[p] == j && o < p;
    assert Pair(a, p, j) && Pair(b, p, j);
  }

  lemma SameWaiting(code: string, a: map<nat, nat>, b: map<nat, nat>, o: nat, n: nat)
    requires n <= |code| && SameBefore(a, b, n)
    ensures Waiting(code, a, o, n) <==> Waiting(code, b, o, n)
  {
    hide TakenAbove, SameBefore;
    forall j | o < j < n ensures TakenAbove(a, o, j) <==> TakenAbove(b, o, j) {
      SameOrder(a, b, n);
      if TakenAbove(a, o, j) { SameTaken(a, b, n, o, j); }
      if TakenAbove(b, o, j) { SameTaken(b, a, n, o, j); }
    }
  }

  lemma SameOrder(a: map<nat, nat>, b: map<nat, nat>, n: nat)
    requires SameBefore(a, b, n)
    ensures SameBefore(b, a, n)
  {}

  lemma SameLatest(code: string, a: map<nat, nat>, b: map<nat, nat>, i: nat)
    requires i < |code| && IsCloser(code[i]) && SameBefore(a, b, i)
    ensures forall o: nat :: Latest(code, a, o, i) <==> Latest(code, b, o, i)
  {
    hide Waiting, SameBefore;
    forall o: nat ensures Waiting(code, a, o, i) <==> Waiting(code, b, o, i) { SameWaiting(code, a, b, o, i); }
  }

  lemma SameDecided(code: string, a: map<nat, nat>, b: map<nat, nat>, i: nat)
    requires i < |code| && SameBefore(a, b, i + 1) && DecidedAt(code, a, i)
    ensures DecidedAt(code, b, i)
  {
    hide Latest;
    assert SameBefore(a, b, i);
    if IsCloser(code[i]) { SameLatest(code, a, b, i); }
  }

  /** The stack holds the openers that are waiting. */
  ghost predicate StackWaits(code: string, st: Scan, n: nat)
    requires n <= |code|
  {
    forall o: nat :: o in st.stack <==> Waiting(code, st.pairs, o, n)
  }

  lemma WaitingNext(code: string, pairs: map<nat, nat>, o: nat, n: nat)
    requires n < |code|
    ensures Waiting(code, pairs, o, n + 1) <==>
      if o < n then Waiting(code, pairs, o, n) && (IsCloser(code[n]) ==> TakenAbove(pairs, o, n))
      else o == n && IsOpener(code[n])
  {
    hide TakenAbove;
  }

  lemma {:induction false} ScanRecovers(code: string, n: nat)
    requires n <= |code|
    ensures Recovers(code, ScanTo(code, n).pairs, n) && StackWaits(code, ScanTo(code, n), n)
  {
    hide Recovers, StackWaits, Step, Sound, StackOutside;
    if n == 0 {
      NothingToRecover(code);
    } else {
      ScanRecovers(code, n - 1);
      ScanIsSound(code, n - 1);
      StepRecovers(code, n - 1, ScanTo(code, n - 1));
    }
  }

  lemma NothingToRecover(code: string)
    ensures Recovers(code, map[], 0) && StackWaits(code, Scan([], map[]), 0)
  {}

  lemma StepRecovers(code: string, i: nat, st: Scan)
    requires i < |code| && Under(st.stack, i) && StackOutside(code, st, i)
    requires Recovers(code, st.pairs, i) && StackWaits(code, st, i)
    ensures Recovers(code, Step(code, i, st).pairs, i + 1) && StackWaits(code, Step(code, i, st), i + 1)
  {
    hide Recovers, StackWaits, StackOutside, PopTo;
    if IsCloser(code[i]) {
      var kept := PopTo(code, st.stack, OpenerOf(code[i]));
      if kept == [] {
        UnmatchedRecovers(code, i, st);
      } else {
        var rest, p := kept[..|kept| - 1], kept[|kept| - 1];
        assert kept == rest + [p];
        MatchedRecovers(code, i, st, rest, p);
      }
    } else {
      PlainRecovers(code, i, st);
    }
  }

  lemma NoPairYet(code: string, pairs: map<nat, nat>, i: nat)
    requires i < |code| && Recovers(code, pairs, i)
    ensures forall o: nat :: !Pair(pairs, o, i)
    ensures forall o: nat :: !TakenAbove(pairs, o, i)
  {}

  lemma PlainRecovers(code: string, i: nat, st: Scan)
    requires i < |code| && !IsCloser(code[i])
    requires Recovers(code, st.pairs, i) && StackWaits(code, st, i)
    ensures Recovers(code, st.pairs, i + 1)
    ensures StackWaits(code, if IsOpener(code[i]) then st.(stack := st.stack + [i]) else st, i + 1)
  {
    hide Waiting, Latest;
    NoPairYet(code, st.pairs, i);
    assert DecidedAt(code, st.pairs, i);
    var t := if IsOpener(code[i]) then st.(stack := st.stack + [i]) else st;
    forall o: nat ensures o in t.stack <==> Waiting(code, st.pairs, o, i + 1) {
      WaitingNext(code, st.pairs, o, i);
      WaitingIsBefore(code, st.pairs, o, i);
    }
  }

  lemma WaitingIsBefore(code: string, pairs: map<nat, nat>, o: nat, n: nat)
    requires n <= |code|
    ensures Waiting(code, pairs, o, n) ==> o < n
  {}

  lemma UnmatchedRecovers(code: string, i: nat, st: Scan)
    requires i < |code| && IsCloser(code[i])
    requires Under(st.stack, i) && forall k :: 0 <= k < |st.stack| ==> code[st.stack[k]] != OpenerOf(code[i])
    requires Recovers(code, st.pairs, i) && StackWaits(code, st, i)
    ensures Recovers(code, st.pairs, i + 1) && StackWaits(code, st.(stack := []), i + 1)
  {
    hide Waiting;
    NoPairYet(code, st.pairs, i);
    forall o: nat ensures !Latest(code, st.pairs, o, i) {
      if o in st.stack { assert code[o] != OpenerOf(code[i]); }
    }
    assert DecidedAt(code, st.pairs, i);
    var n := i + 1;
    forall o: nat ensures !Waiting(code, st.pairs, o, n) { WaitingNext(code, st.pairs, o, i); }
  }

  lemma MatchedRecovers(code: string, i: nat, st: Scan, rest: seq<nat>, p: nat)
    requires i < |code| && IsCloser(code[i]) && StackOutside(code, st, i)
    requires rest + [p] <= st.stack && p < i && code[p] == OpenerOf(code[i])
    requires forall k :: |rest| < k < |st.stack| ==> st.stack[k] < i && code[st.stack[k]] != OpenerOf(code[i])
    requires Recovers(code, st.pairs, i) && StackWaits(code, st, i)
    ensures Recovers(code, st.pairs[p := i], i + 1) && StackWaits(code, Scan(rest, st.pairs[p := i]), i + 1)
  {
    hide Recovers, StackWaits, StackOutside;
    var more := st.pairs[p := i];
    NewPairIsLater(code, i, st, rest, p);
    TopIsLatest(code, i, st, rest, p);
    OldDecisions(code, st.pairs, more, i);
    DecidedNow(code, i, st.pairs, more, p);
    AllDecided(code, more, i);
    RestWaits(code, i, st, more, rest, p);
  }

  lemma AllDecided(code: string, pairs: map<nat, nat>, i: nat)
    requires i < |code| && (forall o: nat :: o in pairs ==> pairs[o] <= i)
    requires forall k :: 0 <= k <= i ==> DecidedAt(code, pairs, k)
    ensures Recovers(code, pairs, i + 1)
  {
    hide DecidedAt;
  }

  lemma NewPairIsLater(code: string, i: nat, st: Scan, rest: seq<nat>, p: nat)
    requires i < |code| && StackOutside(code, st, i) && rest + [p] <= st.stack && Recovers(code, st.pairs, i)
    ensures var more := st.pairs[p := i];
      && p !in st.pairs && SameBefore(st.pairs, more, i)
      && (forall o: nat :: o in more ==> more[o] <= i)
      && (forall o: nat :: Pair(more, o, i) <==> o == p)
  {
    hide DecidedAt;
    assert st.stack[|rest|] == (rest + [p])[|rest|];
  }

  /** Of the waiting openers, `p` is the latest of the kind needed, and the ones before it are `rest`. */
  lemma TopIsLatest(code: string, i: nat, st: Scan, rest: seq<nat>, p: nat)
    requires i < |code| && IsCloser(code[i]) && StackOutside(code, st, i) && StackWaits(code, st, i)
    requires rest + [p] <= st.stack && p < i && code[p] == OpenerOf(code[i])
    requires forall k :: |rest| < k < |st.stack| ==> st.stack[k] < i && code[st.stack[k]] != OpenerOf(code[i])
    ensures forall o: nat :: Latest(code, st.pairs, o, i) <==> o == p
    ensures forall o: nat :: Waiting(code, st.pairs, o, i) && o < p <==> o in rest
  {
    hide Waiting;
    var full := rest + [p];
    assert st.stack[|rest|] == full[|rest|] == p;
    forall k | 0 <= k < |rest| ensures st.stack[k] == rest[k] < p { assert full[k] == rest[k]; }
    forall o: nat ensures o in st.stack && o < p <==> o in rest {
      if o in st.stack && o < p {
        var k :| 0 <= k < |st.stack| && st.stack[k] == o;
        assert k < |rest|;
      }
    }
    assert p in st.stack;
    forall q | q in st.stack && q > p ensures code[q] != code[p] {
      var k :| 0 <= k < |st.stack| && st.stack[k] == q;
      assert k > |rest|;
    }
  }

  lemma OldDecisions(code: string, pairs: map<nat, nat>, more: map<nat, nat>, i: nat)
    requires i < |code| && SameBefore(pairs, more, i) && Recovers(code, pairs, i)
    ensures forall k :: 0 <= k < i ==> DecidedAt(code, more, k)
  {
    hide DecidedAt;
    forall k | 0 <= k < i ensures DecidedAt(code, more, k) {
      assert SameBefore(pairs, more, k + 1);
      SameDecided(code, pairs, more, k);
    }
  }

  lemma DecidedNow(code: string, i: nat, pairs: map<nat, nat>, more: map<nat, nat>, p: nat)
    requires i < |code| && IsCloser(code[i]) && SameBefore(pairs, more, i)
    requires forall o: nat :: Latest(code, pairs, o, i) <==> o == p
    requires forall o: nat :: Pair(more, o, i) <==> o == p
    ensures DecidedAt(code, more, i)
  {
    hide Latest, SameBefore;
    SameLatest(code, pairs, more, i);
  }

  lemma RestWaits(code: string, i: nat, st: Scan, more: map<nat, nat>, rest: seq<nat>, p: nat)
    requires i < |code| && IsCloser(code[i]) && p < i && SameBefore(st.pairs, more, i)
    requires forall o: nat :: Waiting(code, st.pairs, o, i) && o < p <==> o in rest
    requires forall o: nat :: Pair(more, o, i) <==> o == p
    ensures StackWaits(code, Scan(rest, more), i + 1)
  {
    hide Waiting, SameBefore;
    var n := i + 1;
    forall o: nat ensures o in rest <==> Waiting(code, more, o, n) {
      WaitingNext(code, more, o, i);
      SameWaiting(code, st.pairs, more, o, i);
      TakenByOne(more, o, i, p);
      WaitingIsBefore(code, st.pairs, o, i);
    }
  }

  lemma TakenByOne(pairs: map<nat, nat>, o: nat, i: nat, p: nat)
    requires forall q: nat :: Pair(pairs, q, i) <==> q == p
    ensures TakenAbove(pairs, o, i) <==> o < p
  {
    assert Pair(pairs, p, i);
    if TakenAbove(pairs, o, i) {
      var q: nat :| q in pairs && pairs[q] == i && o < q;
      assert Pair(pairs, q, i);
    }
  }

  lemma {:induction false} RecoveryAgrees(code: string, a: map<nat, nat>, b: map<nat, nat>, n: nat)
    requires n <= |code| && Recovers(code, a, |code|) && Recovers(code, b, |code|)
    ensures SameBefore(a, b, n)
  {
    hide Recovers, Latest;
    if n > 0 {
      RecoveryAgrees(code, a, b, n - 1);
      IsDecided(code, a, n - 1);
      IsDecided(code, b, n - 1);
      if IsCloser(code[n - 1]) { SameLatest(code, a, b, n - 1); }
      forall o: nat, i: nat | i < n ensures Pair(a, o, i) <==> Pair(b, o, i) {
        if i == n - 1 { assert Pair(a, o, i) <==> Pair(b, o, i); }
      }
    }
  }

  lemma IsDecided(code: string, pairs: map<nat, nat>, i: nat)
    requires i < |code| && Recovers(code, pairs, |code|)
    ensures DecidedAt(code, pairs, i)
  {}

  /** On any text, well bracketed or not, the scan's pairs are the only ones by that rule. */
  lemma RecoveryDecides(code: string, pairs: map<nat, nat>)
    ensures Recovers(code, pairs, |code|) <==> pairs == Matching(code)
  {
    ScanRecovers(code, |code|);
    if Recovers(code, pairs, |code|) {
      RecoveryAgrees(code, pairs, Matching(code), |code|);
      hide DecidedAt;
      SamePairs(code, pairs, Matching(code));
    }
  }

  lemma SamePairs(code: string, a: map<nat, nat>, b: map<nat, nat>)
    requires Recovers(code, a, |code|) && Recovers(code, b, |code|) && SameBefore(a, b, |code|)
    ensures a == b
  {
    hide DecidedAt;
    forall o: nat ensures o in a <==> o in b {
      if o in a { assert Pair(a, o, a[o]) && Pair(b, o, a[o]); }
      if o in b { assert Pair(b, o, b[o]) && Pair(a, o, b[o]); }
    }
    forall o | o in a ensures a[o] == b[o] { assert Pair(a, o, a[o]) && Pair(b, o, a[o]); }
  }

  // ---- well-bracketed text ----

  /** Derivations of the grammar  W ::= empty | plain W | open W close W. */
  datatype Form = Nil | Plain(c: char, rest: Form) | Group(open: char, body: Form, after: Form) {
    ghost predicate Valid() {
      match this
      case Nil => true
      case Plain(c, rest) => !IsBracket(c) && rest.Valid()
      case Group(open, body, after) => IsOpener(open) && body.Valid() && after.Valid()
    }

    ghost function Text(): string
      requires Valid()
    {
      match this
      case Nil => ""
      case Plain(c, rest) => [c] + rest.Text()
      case Group(open, body, after) => [open] + body.Text() + [CloserOf(open)] + after.Text()
    }

    /** The pairs the derivation itself makes, for its text placed at `at`. */
    ghost function Pairs(at: nat): map<nat, nat>
      requires Valid()
    {
      match this
      case Nil => map[]
      case Plain(c, rest) => rest.Pairs(at + 1)
      case Group(open, body, after) =>
        var close := at + 1 + |body.Text()|;
        body.Pairs(at + 1)[at := close] + after.Pairs(close + 1)
    }
  }

  ghost predicate WellBracketed(code: string) {
    exists f: Form :: f.Valid() && f.Text() == code
  }

  /** `t` stands in `code` at `at`. */
  ghost predicate Stands(code: string, at: nat, t: string) {
    at + |t| <= |code| && code[at..at + |t|] == t
  }

  ghost predicate Holds(code: string, f: Form, at: nat)
    requires f.Valid()
  {
    Stands(code, at, f.Text())
  }

  lemma StandsSplit(code: string, at: nat, x: string, y: string)
    requires Stands(code, at, x + y)
    ensures Stands(code, at, x) && Stands(code, at + |x|, y)
  {
    var whole := code[at..at + |x + y|];
    assert whole[..|x|] == x && whole[|x|..] == y;
  }

  lemma StandsOne(code: string, at: nat, c: char)
    requires Stands(code, at, [c])
    ensures at < |code| && code[at] == c
  {
    assert code[at] == code[at..at + 1][0];
  }

  lemma HoldsWithin(code: string, f: Form, at: nat)
    requires f.Valid() && Holds(code, f, at)
    ensures at + |f.Text()| <= |code|
  {}

  lemma HoldsPlain(code: string, f: Form, at: nat)
    requires f.Valid() && Holds(code, f, at) && f.Plain?
    ensures at < |code| && code[at] == f.c && Holds(code, f.rest, at + 1)
  {
    hide Stands;
    StandsSplit(code, at, [f.c], f.rest.Text());
    StandsOne(code, at, f.c);
  }

  lemma HoldsGroup(code: string, f: Form, at: nat)
    requires f.Valid() && Holds(code, f, at) && f.Group?
    ensures var close := at + 1 + |f.body.Text()|;
      && close < |code| && code[at] == f.open && Holds(code, f.body, at + 1)
      && code[close] == CloserOf(f.open) && Holds(code, f.after, close + 1)
  {
    hide Stands;
    var front := [f.open] + f.body.Text();
    StandsSplit(code, at, front + [CloserOf(f.open)], f.after.Text());
    StandsSplit(code, at, front, [CloserOf(f.open)]);
    StandsSplit(code, at, [f.open], f.body.Text());
    StandsOne(code, at, f.open);
    StandsOne(code, at + |front|, CloserOf(f.open));
  }

  /** A closer meeting its opener on top of the stack takes it. */
  lemma CloseStep(code: string, stack: seq<nat>, pairs: map<nat, nat>, open: nat, close: nat)
    requires open < close < |code| && Under(stack + [open], close)
    requires IsOpener(code[open]) && code[close] == CloserOf(code[open])
    ensures Step(code, close, Scan(stack + [open], pairs)) == Scan(stack, pairs[open := close])
  {
    var full := stack + [open];
    assert full[|full| - 1] == open && full[..|full| - 1] == stack;
    assert PopTo(code, full, code[open]) == full;
  }

  lemma UnionOfGroup(p: map<nat, nat>, inner: map<nat, nat>, outer: map<nat, nat>, at: nat, close: nat)
    ensures (p + inner)[at := close] + outer == p + (inner[at := close] + outer)
  {}

  /** The scan over `code` from `at` to `end` keeps the stack and adds `pairs`. */
  ghost predicate Adds(code: string, at: nat, end: nat, pairs: map<nat, nat>)
    requires at <= end <= |code|
  {
    ScanTo(code, end) == Scan(ScanTo(code, at).stack, ScanTo(code, at).pairs + pairs)
  }

  lemma ScanGroup(code: string, at: nat, close: nat, end: nat, inner: map<nat, nat>, outer: map<nat, nat>)
    requires at < close < end <= |code| && IsOpener(code[at]) && code[close] == CloserOf(code[at])
    requires Adds(code, at + 1, close, inner) && Adds(code, close + 1, end, outer)
    ensures Adds(code, at, end, inner[at := close] + outer)
  {
    hide PopTo;
    var before := ScanTo(code, at);
    assert ScanTo(code, at + 1) == Scan(before.stack + [at], before.pairs);
    CloseStep(code, before.stack, before.pairs + inner, at, close);
    assert ScanTo(code, close + 1) == Step(code, close, ScanTo(code, close));
    UnionOfGroup(before.pairs, inner, outer, at, close);
  }

  lemma ScanPlain(code: string, at: nat, end: nat, pairs: map<nat, nat>)
    requires at < end <= |code| && !IsBracket(code[at]) && Adds(code, at + 1, end, pairs)
    ensures Adds(code, at, end, pairs)
  {
    assert ScanTo(code, at + 1) == ScanTo(code, at);
  }

  lemma ScanNothing(code: string, at: nat)
    requires at <= |code|
    ensures Adds(code, at, at, map[])
  {
    assert ScanTo(code, at).pairs + map[] == ScanTo(code, at).pairs;
  }

  /** Scanning a well-bracketed stretch leaves the stack alone and adds exactly its pairs. */
  lemma {:induction false} ScanForm(code: string, f: Form, at: nat)
    requires f.Valid() && Holds(code, f, at)
    ensures Adds(code, at, at + |f.Text()|, f.Pairs(at))
    decreases f
  {
    hide ScanTo, Adds, Holds;
    HoldsWithin(code, f, at);
    match f
    case Nil =>
      ScanNothing(code, at);
    case Plain(c, rest) =>
      HoldsPlain(code, f, at);
      ScanForm(code, rest, at + 1);
      ScanPlain(code, at, at + |f.Text()|, rest.Pairs(at + 1));
    case Group(open, body, rest) =>
      HoldsGroup(code, f, at);
      var close := at + 1 + |body.Text()|;
      ScanForm(code, body, at + 1);
      ScanForm(code, rest, close + 1);
      ScanGroup(code, at, close, at + |f.Text()|, body.Pairs(at + 1), rest.Pairs(close + 1));
  }

  /** On well-bracketed text the scan finds the matching of the grammar, whatever the derivation. */
  lemma MatchingOfForm(f: Form)
    requires f.Valid()
    ensures Matching(f.Text()) == f.Pairs(0)
  {
    hide ScanTo, Adds, Holds, Form.Text, Form.Pairs;
    HoldsItself(f);
    ScanForm(f.Text(), f, 0);
    AddsFromStart(f.Text(), f.Pairs(0));
  }

  lemma HoldsItself(f: Form)
    requires f.Valid()
    ensures Holds(f.Text(), f, 0)
  {
    hide Form.Text;
    assert f.Text()[0..|f.Text()|] == f.Text();
  }

  lemma AddsFromStart(code: string, pairs: map<nat, nat>)
    requires Adds(code, 0, |code|, pairs)
    ensures ScanTo(code, |code|).pairs == pairs
  {
    assert ScanTo(code, 0).pairs + pairs == pairs;
  }

  ghost predicate Matched(code: string, pairs: map<nat, nat>, i: nat)
    requires i < |code|
  {
    && (IsOpener(code[i]) ==> i in pairs)
    && (IsCloser(code[i]) ==> exists a :: a in pairs && pairs[a] == i)
  }

  ghost predicate AllMatched(code: string, pairs: map<nat, nat>) {
    forall i: nat :: i < |code| ==> Matched(code, pairs, i)
  }

  lemma GroupPairs(f: Form, at: nat)
    requires f.Valid() && f.Group?
    ensures
      var close := at + 1 + |f.body.Text()|;
      var inner, outer := f.body.Pairs(at + 1), f.after.Pairs(close + 1);
      && at in f.Pairs(at) && f.Pairs(at)[at] == close
      && (forall a :: a in inner ==> a in f.Pairs(at) && f.Pairs(at)[a] == inner[a])
      && (forall a :: a in outer ==> a in f.Pairs(at) && f.Pairs(at)[a] == outer[a])
  {
    PairsWithin(f.body, at + 1);
    PairsWithin(f.after, at + 2 + |f.body.Text()|);
  }

  lemma {:induction false} FormIsMatched(code: string, f: Form, at: nat, i: nat)
    requires f.Valid() && Holds(code, f, at) && at <= i < at + |f.Text()|
    ensures i < |code| && Matched(code, f.Pairs(at), i)
    decreases f
  {
    hide Form.Pairs, Holds;
    HoldsWithin(code, f, at);
    match f
    case Plain(c, rest) =>
      HoldsPlain(code, f, at);
      PlainPairs(f, at);
      if i > at { FormIsMatched(code, rest, at + 1, i); }
    case Group(open, body, rest) =>
      HoldsGroup(code, f, at);
      GroupPairs(f, at);
      var close := at + 1 + |body.Text()|;
      if at < i < close {
        FormIsMatched(code, body, at + 1, i);
      } else if i > close {
        FormIsMatched(code, rest, close + 1, i);
      }
  }

  lemma PlainPairs(f: Form, at: nat)
    requires f.Valid() && f.Plain?
    ensures f.Pairs(at) == f.rest.Pairs(at + 1)
  {}

  lemma {:induction false} PairsWithin(f: Form, at: nat)
    requires f.Valid()
    ensures forall a :: a in f.Pairs(at) ==> at <= a < f.Pairs(at)[a] < at + |f.Text()|
    decreases f
  {
    match f
    case Nil =>
    case Plain(c, rest) => PairsWithin(rest, at + 1);
    case Group(open, body, rest) =>
      PairsWithin(body, at + 1);
      PairsWithin(rest, at + 2 + |body.Text()|);
  }

  /** Every bracket between `lo` and `hi` is matched by a bracket between them. */
  ghost predicate Closed(code: string, pairs: map<nat, nat>, lo: nat, hi: nat)
    requires hi <= |code|
  {
    forall i: nat :: lo <= i < hi ==>
      && (IsOpener(code[i]) ==> i in pairs && pairs[i] < hi)
      && (IsCloser(code[i]) ==> exists a :: a in pairs && pairs[a] == i && lo <= a)
  }

  lemma ClosedParts(code: string, pairs: map<nat, nat>, lo: nat, hi: nat)
    requires lo < hi <= |code| && Sound(code, pairs) && Closed(code, pairs, lo, hi)
    ensures !IsCloser(code[lo])
    ensures !IsBracket(code[lo]) ==> Closed(code, pairs, lo + 1, hi)
    ensures IsOpener(code[lo]) ==>
      && lo in pairs && lo < pairs[lo] < hi
      && Closed(code, pairs, lo + 1, pairs[lo]) && Closed(code, pairs, pairs[lo] + 1, hi)
  {
    if !IsBracket(code[lo]) {
      forall i: nat | lo + 1 <= i < hi && IsCloser(code[i])
        ensures exists a :: a in pairs && pairs[a] == i && lo + 1 <= a
      {
        var a :| a in pairs && pairs[a] == i && lo <= a;
        assert SameKind(code, a, pairs[a]);
      }
    }
    if IsOpener(code[lo]) {
      var close := pairs[lo];
      assert SameKind(code, lo, close);
      forall i: nat | lo + 1 <= i < close && IsOpener(code[i]) ensures i in pairs && pairs[i] < close {
        assert Apart(pairs, lo, i);
      }
      forall i: nat | lo + 1 <= i < hi && i != close && IsCloser(code[i])
        ensures exists a :: a in pairs && pairs[a] == i && (if i < close then lo + 1 else close + 1) <= a
      {
        var a :| a in pairs && pairs[a] == i && lo <= a;
        assert SameKind(code, a, i);
        if lo < a { assert Apart(pairs, lo, a); }
      }
    }
  }

  lemma CutAround(code: string, lo: nat, mid: nat, hi: nat)
    requires lo < mid < hi <= |code|
    ensures code[lo..hi] == [code[lo]] + code[lo + 1..mid] + [code[mid]] + code[mid + 1..hi]
  {}

  lemma {:induction false} Derive(code: string, pairs: map<nat, nat>, lo: nat, hi: nat) returns (f: Form)
    requires lo <= hi <= |code| && Sound(code, pairs) && Closed(code, pairs, lo, hi)
    ensures f.Valid() && f.Text() == code[lo..hi]
    decreases hi - lo
  {
    if lo == hi {
      f := Nil;
    } else {
      ClosedParts(code, pairs, lo, hi);
      hide Closed;
      if !IsBracket(code[lo]) {
        var rest := Derive(code, pairs, lo + 1, hi);
        f := Plain(code[lo], rest);
        assert code[lo..hi] == [code[lo]] + code[lo + 1..hi];
      } else {
        var close := pairs[lo];
        assert SameKind(code, lo, close);
        hide Sound;
        var body := Derive(code, pairs, lo + 1, close);
        var after := Derive(code, pairs, close + 1, hi);
        f := Group(code[lo], body, after);
        CutAround(code, lo, close, hi);
      }
    }
  }

  /** A text is well bracketed exactly when the scan matches every bracket in it. */
  lemma WellBracketedIffAllMatched(code: string)
    ensures WellBracketed(code) <==> AllMatched(code, Matching(code))
  {
    var pairs := Matching(code);
    if WellBracketed(code) {
      var f: Form :| f.Valid() && f.Text() == code;
      MatchingOfForm(f);
      forall i: nat | i < |code| ensures Matched(code, pairs, i) { FormIsMatched(code, f, 0, i); }
    }
    if AllMatched(code, pairs) {
      MatchingIsSound(code);
      forall i: nat | i < |code|
        ensures IsOpener(code[i]) ==> i in pairs && pairs[i] < |code|
        ensures IsCloser(code[i]) ==> exists a :: a in pairs && pairs[a] == i && 0 <= a
      {
        assert Matched(code, pairs, i);
        if IsOpener(code[i]) { assert SameKind(code, i, pairs[i]); }
      }
      var f := Derive(code, pairs, 0, |code|);
      assert code[0..|code|] == code;
    }
  }
}
