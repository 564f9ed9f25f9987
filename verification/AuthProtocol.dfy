/** The bounded, string-aware argument splitter (src/attackmap/auth_protocol.py), and its
    agreement with the plain one. */
module AuthProtocol {
  import opened Wrappers
  import opened Text
  import opened HandlerAuth
  import opened Authz

  const CALL_SCAN_LIMIT: nat := 4000

  predicate IsQuote(c: char) { c == '\'' || c == '"' || c == '`' }

  /** Python's slice, which stops at the end of the text. */
  function Slice(s: string, a: nat, b: nat): string {
    var hi := if b < |s| then b else |s|;
    if a <= hi then s[a..hi] else ""
  }

  function Tail(content: string, start: nat, i: nat): seq<string> {
    var tail := Strip(Slice(content, start, i));
    if tail == "" then [] else [tail]
  }

  /** The arguments still to come when the scan stands at `i`. */
  function ArgsFrom(content: string, end: nat, i: nat, depth: nat, quote: Option<char>, start: nat): seq<string>
    requires end <= |content|
    decreases if i < end then end - i else 0
  {
    if i >= end then Tail(content, start, i)
    else
      var ch := content[i];
      if quote.Some? then
        if ch == '\\' then ArgsFrom(content, end, i + 2, depth, quote, start)
        else ArgsFrom(content, end, i + 1, depth, if ch == quote.value then None else quote, start)
      else if IsQuote(ch) then ArgsFrom(content, end, i + 1, depth, Some(ch), start)
      else if IsOpener(ch) then ArgsFrom(content, end, i + 1, depth + 1, None, start)
      else if IsCloser(ch) then
        if depth == 0 then Tail(content, start, i) else ArgsFrom(content, end, i + 1, depth - 1, None, start)
      else if ch == ',' && depth == 0 then
        [Strip(Slice(content, start, i))] + ArgsFrom(content, end, i + 1, depth, None, i + 1)
      else ArgsFrom(content, end, i + 1, depth, None, start)
  }

  /** The end of the text, or 4000 characters on, whichever is first. */
  function ScanEnd(content: string, offset: nat): (end: nat)
    ensures (end == |content| || end == offset + 4000) && end <= |content| && end <= offset + 4000
  {
    if |content| < offset + CALL_SCAN_LIMIT then |content| else offset + CALL_SCAN_LIMIT
  }

  method CallArgs(content: string, offset: nat) returns (args: seq<string>)
    ensures args == ArgsFrom(content, ScanEnd(content, offset), offset, 0, None, offset)
    ensures var a := Stretch(content, offset); args == Trimmed(PartsBy(a, Plained(a)))
    ensures NoneTornApart(content, offset, args)
  {
    hide Stretch, Trimmed, PartsBy, Plained, NoneTornApart, Slice, Strip, IsQuote, IsOpener, IsCloser, ScanEnd;
    args := [];
    var depth: nat := 0;
    var quote: Option<char> := None;
    var start: nat := offset;
    var end := ScanEnd(content, offset);
    var i: nat := offset;
    ghost var all := ArgsFrom(content, end, offset, 0, None, offset);
    while i < end
      invariant args + ArgsFrom(content, end, i, depth, quote, start) == all
      decreases end - i
    {
      var ch := content[i];
      if quote.Some? {
        if ch == '\\' {
          i := i + 2;
          continue;
        }
        if ch == quote.value { quote := None; }
      } else if IsQuote(ch) {
        quote := Some(ch);
      } else if IsOpener(ch) {
        depth := depth + 1;
      } else if IsCloser(ch) {
        if depth == 0 { break; }
        depth := depth - 1;
      } else if ch == ',' && depth == 0 {
        args := args + [Strip(Slice(content, start, i))];
        start := i + 1;
      }
      i := i + 1;
    }
    args := args + Tail(content, start, i);
    ArgumentsOfStretch(content, offset);
    KeptTogether(content, offset);
  }

  // ---- string literals ----

  /** Inside which literal the scan stands, and whether right behind a backslash in it. */
  datatype Lexed = Lexed(quote: Option<char>, escaped: bool)

  function LexTo(a: string, n: nat): Lexed
    requires n <= |a|
  {
    if n == 0 then Lexed(None, false)
    else
      var l, ch := LexTo(a, n - 1), a[n - 1];
      if l.quote.None? then Lexed(if IsQuote(ch) then Some(ch) else None, false)
      else if l.escaped then Lexed(l.quote, false)
      else if ch == '\\' then Lexed(l.quote, true)
      else Lexed(if ch == l.quote.value then None else l.quote, false)
  }

  /** The text with every character of a literal, quotes included, replaced by a plain one. */
  function Plained(a: string): (m: string)
    ensures |m| == |a|
    ensures forall k :: 0 <= k < |m| ==> m[k] == if LexTo(a, k).quote.Some? || IsQuote(a[k]) then 'x' else a[k]
  {
    seq(|a|, k requires 0 <= k < |a| => if LexTo(a, k).quote.Some? || IsQuote(a[k]) then 'x' else a[k])
  }

  /** The parts of `text` that end at the top-level commas of `mask`. */
  function CutBy(text: string, mask: string, n: nat): (c: Cut)
    requires n <= |text| == |mask|
    ensures c.start <= n
  {
    if n == 0 then Cut([], 0)
    else
      var c := CutBy(text, mask, n - 1);
      if TopComma(mask, n - 1) then Cut(c.parts + [text[c.start..n - 1]], n) else c
  }

  function PartsBy(text: string, mask: string): (r: seq<string>)
    requires |text| == |mask|
    ensures r != []
  {
    var c := CutBy(text, mask, |text|);
    c.parts + [text[c.start..]]
  }

  ghost predicate SameLengths(x: seq<string>, y: seq<string>) {
    |x| == |y| && forall i :: 0 <= i < |x| ==> |x[i]| == |y[i]|
  }

  /** Wherever the mask has a comma the text has one. */
  ghost predicate CommasOf(text: string, mask: string) {
    |text| == |mask| && forall k :: 0 <= k < |mask| ==> mask[k] == ',' ==> text[k] == ','
  }

  lemma {:induction false} CutByLengths(text: string, mask: string, n: nat)
    requires n <= |text| == |mask|
    ensures
      var b, c := CutBy(text, mask, n), CutTo(mask, n);
      b.start == c.start && SameLengths(b.parts, c.parts)
  {
    if n > 0 {
      CutByLengths(text, mask, n - 1);
      var b, c := CutBy(text, mask, n - 1), CutTo(mask, n - 1);
      CutByNext(text, mask, n - 1);
      CutNext(mask, n - 1);
      hide CutBy, CutTo, TopComma;
      if TopComma(mask, n - 1) { LengthsPush(b.parts, c.parts, text[b.start..n - 1], mask[c.start..n - 1]); }
    }
  }

  lemma LengthsPush(xs: seq<string>, ys: seq<string>, x: string, y: string)
    requires SameLengths(xs, ys) && |x| == |y|
    ensures SameLengths(xs + [x], ys + [y])
  {}

  lemma {:induction false} CutByLosesNothing(text: string, mask: string, n: nat)
    requires CommasOf(text, mask) && n <= |text|
    ensures
      var b := CutBy(text, mask, n);
      JoinCommas(b.parts + [text[b.start..n]]) == text[..n]
  {
    if n > 0 {
      CutByLosesNothing(text, mask, n - 1);
      CutByKeepsText(text, mask, n - 1);
    }
  }

  lemma CutByNext(text: string, mask: string, n: nat)
    requires n < |text| == |mask|
    ensures
      var b, c := CutBy(text, mask, n), CutBy(text, mask, n + 1);
      if TopComma(mask, n) then c.start == n + 1 && c.parts == b.parts + [text[b.start..n]] else c == b
  {}

  lemma CutByKeepsText(text: string, mask: string, n: nat)
    requires CommasOf(text, mask) && n < |text|
    requires JoinCommas(CutBy(text, mask, n).parts + [text[CutBy(text, mask, n).start..n]]) == text[..n]
    ensures
      var c := CutBy(text, mask, n + 1);
      JoinCommas(c.parts + [text[c.start..n + 1]]) == text[..n + 1]
  {
    var b := CutBy(text, mask, n);
    CutByNext(text, mask, n);
    OneMore(text, b.start, n);
    hide JoinCommas, TopComma, CommasOf, CutBy;
    if TopComma(mask, n) {
      CommaThere(text, mask, n);
      JoinEmpty(b.parts + [text[b.start..n]]);
    } else {
      JoinLast(b.parts, text[b.start..n], [text[n]]);
    }
  }

  lemma CommaThere(text: string, mask: string, k: nat)
    requires CommasOf(text, mask) && k < |mask| && TopComma(mask, k)
    ensures text[k] == ','
  {}

  /** The parts are pieces of the text, as long as those of the mask. */
  lemma PartsByAreThoseOfMask(text: string, mask: string)
    requires CommasOf(text, mask)
    ensures JoinCommas(PartsBy(text, mask)) == text && SameLengths(PartsBy(text, mask), RawParts(mask))
  {
    hide JoinCommas, CutBy, CutTo;
    CutByLosesNothing(text, mask, |text|);
    CutByLengths(text, mask, |text|);
    var b, c := CutBy(text, mask, |text|), CutTo(mask, |mask|);
    assert text[..|text|] == text && text[b.start..|text|] == text[b.start..];
    LengthsPush(b.parts, c.parts, text[b.start..], mask[c.start..]);
  }

  /** Brackets that are closed after they were opened. */
  ghost predicate Nested(a: string) {
    Nest(a, |a|) == 0 && forall n: nat :: n <= |a| ==> Nest(a, n) >= 0
  }

  // ---- the stretch that is scanned ----

  /** A closing bracket outside literals that closes nothing opened before it. */
  predicate StopsAt(w: string, n: nat) {
    n < |w| && LexTo(w, n).quote.None? && IsCloser(w[n]) && Nest(Plained(w), n) == 0
  }

  /** The first such bracket, or the end. */
  function StopOf(w: string): nat {
    FirstFrom((n: nat) => StopsAt(w, n), 0, |w|)
  }

  lemma StopIsFirst(w: string)
    ensures StopOf(w) <= |w| && (StopOf(w) < |w| ==> StopsAt(w, StopOf(w)))
    ensures forall k :: 0 <= k < StopOf(w) ==> !StopsAt(w, k)
  {
    hide StopsAt;
    var p := (n: nat) => StopsAt(w, n);
    assert forall n: nat :: p(n) == StopsAt(w, n);
  }

  /** What is read of the text: up to the first closing bracket that closes nothing, or to the scan
      limit, and one character on when the limit falls behind a backslash in a literal. */
  function Stretch(content: string, offset: nat): string {
    var w := Slice(content, offset, ScanEnd(content, offset));
    var stop := StopOf(w);
    if stop < |w| then w[..stop]
    else if LexTo(w, |w|).escaped then Slice(content, offset, ScanEnd(content, offset) + 1)
    else w
  }

  ghost predicate StandsIn(content: string, offset: nat, a: string) {
    offset + |a| <= |content| && forall k :: 0 <= k < |a| ==> content[offset + k] == a[k]
  }

  ghost predicate NeverBelow(a: string) {
    forall n: nat :: n <= |a| ==> Nest(Plained(a), n) >= 0
  }

  ghost predicate EndsAtCloser(content: string, offset: nat, a: string) {
    var stop := offset + |a|;
    && stop < ScanEnd(content, offset) && IsCloser(content[stop])
    && LexTo(a, |a|).quote.None? && Nest(Plained(a), |a|) == 0
  }

  ghost predicate EndsAtLimit(content: string, offset: nat, a: string) {
    var stop, end := offset + |a|, ScanEnd(content, offset);
    && (stop == end || (stop == end + 1 && |a| > 0 && LexTo(a, |a| - 1).escaped))
    && (LexTo(a, |a|).escaped ==> stop == end == |content|)
  }

  /** `a` is what the scan from `offset` reads. */
  ghost predicate Scanned(content: string, offset: nat, a: string) {
    StandsIn(content, offset, a) && NeverBelow(a) && (EndsAtCloser(content, offset, a) || EndsAtLimit(content, offset, a))
  }

  lemma {:induction false} LexOfPrefix(s: string, t: string, n: nat)
    requires n <= |s| && n <= |t| && s[..n] == t[..n]
    ensures LexTo(s, n) == LexTo(t, n)
  {
    if n > 0 {
      assert s[n - 1] == s[..n][n - 1] && t[n - 1] == t[..n][n - 1];
      assert s[..n - 1] == s[..n][..n - 1] && t[..n - 1] == t[..n][..n - 1];
      LexOfPrefix(s, t, n - 1);
    }
  }

  lemma PlainedOfPrefix(s: string, t: string, n: nat)
    requires n <= |s| && n <= |t| && s[..n] == t[..n]
    ensures Plained(s)[..n] == Plained(t)[..n] && Nest(Plained(s), n) == Nest(Plained(t), n)
  {
    hide LexTo, Nest;
    forall k | 0 <= k < n ensures Plained(s)[k] == Plained(t)[k] {
      assert s[..k] == s[..n][..k] && t[..k] == t[..n][..k];
      assert s[k] == s[..n][k] && t[k] == t[..n][k];
      LexOfPrefix(s, t, k);
    }
    NestOfPrefix(Plained(s), Plained(t), n);
  }

  lemma {:induction false} LevelBeforeStop(w: string, n: nat)
    requires n <= |w| && forall k :: 0 <= k < n ==> !StopsAt(w, k)
    ensures Nest(Plained(w), n) >= 0
  {
    hide StopsAt, Nest, LexTo, Plained;
    NestOfNone(Plained(w));
    if n > 0 {
      LevelBeforeStop(w, n - 1);
      LevelNext(w, n - 1);
    }
  }

  lemma LevelNext(w: string, n: nat)
    requires n < |w| && !StopsAt(w, n) && Nest(Plained(w), n) >= 0
    ensures Nest(Plained(w), n + 1) >= 0
  {
    hide LexTo;
    var m := Plained(w);
    NestNext(m, n);
    hide Nest;
    if IsCloser(m[n]) { assert m[n] == w[n]; }
  }

  lemma NestOfNone(text: string)
    ensures Nest(text, 0) == 0
  {}

  lemma NestNext(text: string, n: nat)
    requires n < |text|
    ensures Nest(text, n + 1) == Nest(text, n) + if IsOpener(text[n]) then 1 else if IsCloser(text[n]) then -1 else 0
  {}

  lemma PrefixNeverBelow(w: string, stop: nat)
    requires stop <= |w| && forall k :: 0 <= k < stop ==> !StopsAt(w, k)
    ensures NeverBelow(w[..stop])
  {
    forall n: nat | n <= stop ensures Nest(Plained(w[..stop]), n) >= 0 {
      LevelBeforeStop(w, n);
      assert w[..stop][..n] == w[..n];
      hide StopsAt, Nest;
      PlainedOfPrefix(w[..stop], w, n);
    }
  }

  lemma StretchIsScanned(content: string, offset: nat)
    requires offset <= |content|
    ensures Scanned(content, offset, Stretch(content, offset))
  {
    var end := ScanEnd(content, offset);
    var w := Slice(content, offset, end);
    var stop := StopOf(w);
    hide StopOf, Nest, LexTo, NeverBelow;
    StopIsFirst(w);
    PrefixNeverBelow(w, stop);
    if stop < |w| {
      StretchToCloser(content, offset, w, stop);
    } else {
      assert w[..stop] == w;
      if LexTo(w, |w|).escaped { StretchOverLimit(content, offset, w); }
    }
  }

  lemma StretchToCloser(content: string, offset: nat, w: string, stop: nat)
    requires offset <= |content| && w == Slice(content, offset, ScanEnd(content, offset)) && stop < |w| && StopsAt(w, stop)
    requires NeverBelow(w[..stop])
    ensures Scanned(content, offset, w[..stop])
  {
    hide Nest, LexTo, NeverBelow;
    assert w[..stop][..stop] == w[..stop];
    LexOfPrefix(w[..stop], w, stop);
    PlainedOfPrefix(w[..stop], w, stop);
  }

  lemma SliceStands(content: string, offset: nat, end: nat)
    requires offset <= |content| && offset <= end
    ensures
      var a := Slice(content, offset, end);
      StandsIn(content, offset, a) && |a| == (if end < |content| then end else |content|) - offset
  {}

  lemma SliceOneOn(content: string, offset: nat, end: nat)
    requires offset <= end < |content|
    ensures Slice(content, offset, end + 1) == Slice(content, offset, end) + [content[end]]
  {}

  lemma StretchOverLimit(content: string, offset: nat, w: string)
    requires offset <= |content| && w == Slice(content, offset, ScanEnd(content, offset)) && NeverBelow(w)
    requires LexTo(w, |w|).escaped
    ensures Scanned(content, offset, Slice(content, offset, ScanEnd(content, offset) + 1))
  {
    var end := ScanEnd(content, offset);
    SliceStands(content, offset, end);
    SliceStands(content, offset, end + 1);
    hide Nest, LexTo, NeverBelow, Plained, StandsIn, Slice, EndsAtCloser;
    if end < |content| {
      SliceOneOn(content, offset, end);
      LexOfOneMore(w, content[end]);
      LevelOfOneMore(w, content[end]);
      OneOverLimit(content, offset, w + [content[end]]);
    } else {
      SameSlice(content, offset, end);
    }
  }

  lemma SameSlice(content: string, offset: nat, end: nat)
    requires end >= |content|
    ensures Slice(content, offset, end + 1) == Slice(content, offset, end)
  {}

  lemma OneOverLimit(content: string, offset: nat, a: string)
    requires StandsIn(content, offset, a) && NeverBelow(a) && |a| > 0 && offset + |a| == ScanEnd(content, offset) + 1
    requires LexTo(a, |a| - 1).escaped && !LexTo(a, |a|).escaped
    ensures Scanned(content, offset, a)
  {
    hide StandsIn, NeverBelow, LexTo, EndsAtCloser;
  }

  lemma LexOfOneMore(w: string, c: char)
    requires LexTo(w, |w|).escaped
    ensures LexTo(w + [c], |w|) == LexTo(w, |w|) && !LexTo(w + [c], |w| + 1).escaped
    ensures LexTo(w, |w|).quote.Some?
  {
    assert (w + [c])[..|w|] == w[..|w|];
    LexOfPrefix(w + [c], w, |w|);
    EscapedInside(w, |w|);
  }

  lemma LevelOfOneMore(w: string, c: char)
    requires LexTo(w, |w|).escaped && NeverBelow(w)
    ensures NeverBelow(w + [c])
  {
    hide LexTo, Nest;
    var a := w + [c];
    LexOfOneMore(w, c);
    LiteralKeeps(a, |w|);
    forall n: nat | n <= |a| ensures Nest(Plained(a), n) >= 0 {
      var k: nat := if n <= |w| then n else |w|;
      assert a[..k] == w[..k];
      PlainedOfPrefix(a, w, k);
    }
  }

  // ---- the scan of a stretch ----

  function StripAll(parts: seq<string>): (r: seq<string>)
    ensures |r| == |parts| && forall i :: 0 <= i < |r| ==> r[i] == Strip(parts[i])
  {
    seq(|parts|, i requires 0 <= i < |parts| => Strip(parts[i]))
  }

  /** The stripped parts, without a blank last one. */
  function Trimmed(parts: seq<string>): seq<string>
    requires parts != []
  {
    var last := Strip(parts[|parts| - 1]);
    StripAll(parts[..|parts| - 1]) + if last == "" then [] else [last]
  }

  lemma SliceOfArguments(content: string, offset: nat, a: string, s: nat, n: nat)
    requires StandsIn(content, offset, a) && s <= n <= |a|
    ensures Slice(content, offset + s, offset + n) == a[s..n]
  {
    var x := content[offset + s..offset + n];
    forall k | 0 <= k < n - s ensures x[k] == a[s..n][k] { assert content[offset + (s + k)] == a[s + k]; }
  }

  /** The arguments still to come, with `n` characters of `a` read and a part begun at `start`. */
  ghost function ToCome(content: string, offset: nat, a: string, n: nat, start: nat): seq<string>
    requires NeverBelow(a) && n <= |a|
  {
    ArgsFrom(content, ScanEnd(content, offset), offset + n, Nest(Plained(a), n), LexTo(a, n).quote, offset + start)
  }

  ghost function Progress(content: string, offset: nat, a: string, n: nat): seq<string>
    requires NeverBelow(a) && n <= |a|
  {
    var c := CutBy(a, Plained(a), n);
    StripAll(c.parts) + ToCome(content, offset, a, n, c.start)
  }

  /** The last part, unless it is blank. */
  function LastOf(part: string): seq<string> {
    var last := Strip(part);
    if last == "" then [] else [last]
  }

  lemma ProgressEnds(content: string, offset: nat, a: string, n: nat)
    requires NeverBelow(a) && n <= |a| && CutBy(a, Plained(a), n) == CutBy(a, Plained(a), |a|)
    requires ToCome(content, offset, a, n, CutBy(a, Plained(a), n).start) == LastOf(a[CutBy(a, Plained(a), n).start..])
    ensures Progress(content, offset, a, n) == Trimmed(PartsBy(a, Plained(a)))
  {
    hide Strip, CutBy, LexTo, Nest, NeverBelow;
    var c := CutBy(a, Plained(a), |a|);
    assert PartsBy(a, Plained(a))[..|c.parts|] == c.parts;
  }

  lemma ToComeEnds(content: string, offset: nat, a: string, start: nat)
    requires Scanned(content, offset, a) && start <= |a|
    ensures ToCome(content, offset, a, |a|, start) == LastOf(a[start..])
  {
    hide ToCome, Strip, NeverBelow, EndsAtCloser, EndsAtLimit, LexTo, Nest, Slice;
    SliceOfArguments(content, offset, a, start, |a|);
    assert a[start..|a|] == a[start..];
    ToComeIsTail(content, offset, a, start);
  }

  lemma ToComeIsTail(content: string, offset: nat, a: string, start: nat)
    requires Scanned(content, offset, a) && start <= |a|
    ensures ToCome(content, offset, a, |a|, start) == Tail(content, offset + start, offset + |a|)
  {
    hide Tail, LexTo, Nest, NeverBelow;
    if EndsAtCloser(content, offset, a) {
      assert !IsQuote(content[offset + |a|]) && !IsOpener(content[offset + |a|]);
    }
  }

  /** A backslash ends the text within a literal. */
  lemma ToComeBackslash(content: string, offset: nat, a: string, n: nat, start: nat)
    requires Scanned(content, offset, a) && start <= n && n + 1 == |a|
    requires !LexTo(a, n).escaped && LexTo(a, |a|).escaped
    ensures ToCome(content, offset, a, n, start) == LastOf(a[start..])
  {
    hide ToCome, Strip, NeverBelow, EndsAtCloser, EndsAtLimit, LexTo, Nest;
    SliceOfArguments(content, offset, a, start, |a|);
    assert a[start..|a|] == a[start..];
    BackslashIsLast(content, offset, a, n, start);
    assert Slice(content, offset + start, offset + |a| + 1) == Slice(content, offset + start, offset + |a|);
  }

  lemma BackslashIsLast(content: string, offset: nat, a: string, n: nat, start: nat)
    requires Scanned(content, offset, a) && start <= n && n + 1 == |a|
    requires !LexTo(a, n).escaped && LexTo(a, |a|).escaped
    ensures offset + |a| == |content|
    ensures ToCome(content, offset, a, n, start) == Tail(content, offset + start, offset + |a| + 1)
  {
    hide Tail, LexTo, Nest, StandsIn;
    EscapedInside(a, |a|);
    LexNext(a, n);
    WithinLimit(content, offset, a, n);
    var end, depth: nat := ScanEnd(content, offset), Nest(Plained(a), n);
    assert ArgsFrom(content, end, offset + n + 2, depth, LexTo(a, n).quote, offset + start)
        == Tail(content, offset + start, offset + n + 2);
  }

  lemma StripAllPush(parts: seq<string>, x: string)
    ensures StripAll(parts + [x]) == StripAll(parts) + [Strip(x)]
  {}

  /** A character of a literal changes neither the depth nor the cut. */
  lemma LiteralKeeps(a: string, n: nat)
    requires n < |a| && (LexTo(a, n).quote.Some? || IsQuote(a[n]))
    ensures Nest(Plained(a), n + 1) == Nest(Plained(a), n)
    ensures CutBy(a, Plained(a), n + 1) == CutBy(a, Plained(a), n)
  {
    hide LexTo;
    assert Plained(a)[n] == 'x';
  }

  /** The scan takes one step through a literal, or two over a backslash. */
  function NextIn(a: string, n: nat): nat
    requires n < |a|
  {
    if LexTo(a, n + 1).escaped then n + 2 else n + 1
  }

  lemma LexNext(a: string, n: nat)
    requires n < |a| && !LexTo(a, n).escaped
    ensures LexTo(a, n + 1).escaped <==> LexTo(a, n).quote.Some? && a[n] == '\\'
    ensures LexTo(a, n + 1).escaped ==> LexTo(a, n + 1).quote == LexTo(a, n).quote
    ensures LexTo(a, n + 1).escaped && n + 1 < |a| ==> LexTo(a, n + 2) == Lexed(LexTo(a, n).quote, false)
    ensures !LexTo(a, n + 1).escaped ==>
      LexTo(a, n + 1).quote ==
        if LexTo(a, n).quote.None? then if IsQuote(a[n]) then Some(a[n]) else None
        else if a[n] == LexTo(a, n).quote.value then None else LexTo(a, n).quote
  {}

  lemma {:induction false} EscapedInside(a: string, n: nat)
    requires n <= |a|
    ensures LexTo(a, n).escaped ==> LexTo(a, n).quote.Some?
  {
    if n > 0 { EscapedInside(a, n - 1); }
  }

  lemma WithinLimit(content: string, offset: nat, a: string, n: nat)
    requires Scanned(content, offset, a) && n < |a| && !LexTo(a, n).escaped
    ensures offset + n < ScanEnd(content, offset) && content[offset + n] == a[n]
  {
    hide LexTo, Nest, NeverBelow;
  }

  lemma StepInLiteral(content: string, offset: nat, a: string, n: nat)
    requires Scanned(content, offset, a) && n < |a| && NextIn(a, n) <= |a|
    requires !LexTo(a, n).escaped && (LexTo(a, n).quote.Some? || IsQuote(a[n]))
    ensures !LexTo(a, NextIn(a, n)).escaped
    ensures Progress(content, offset, a, n) == Progress(content, offset, a, NextIn(a, n))
  {
    hide CutBy, Nest, NeverBelow, StripAll, LexTo, EndsAtCloser, EndsAtLimit;
    LexNext(a, n);
    LiteralKeeps(a, n);
    if LexTo(a, n + 1).escaped { LiteralKeeps(a, n + 1); }
    ToComeInLiteral(content, offset, a, n, CutBy(a, Plained(a), n).start);
  }

  lemma ToComeInLiteral(content: string, offset: nat, a: string, n: nat, start: nat)
    requires Scanned(content, offset, a) && n < |a|
    requires !LexTo(a, n).escaped && (LexTo(a, n).quote.Some? || IsQuote(a[n]))
    requires NextIn(a, n) <= |a| && Nest(Plained(a), NextIn(a, n)) == Nest(Plained(a), n)
    ensures ToCome(content, offset, a, n, start) == ToCome(content, offset, a, NextIn(a, n), start)
  {
    hide Nest, LexTo, Tail, StandsIn, EndsAtCloser, EndsAtLimit, NeverBelow;
    WithinLimit(content, offset, a, n);
    LexNext(a, n);
  }

  lemma StepOutside(content: string, offset: nat, a: string, n: nat)
    requires Scanned(content, offset, a) && n < |a|
    requires !LexTo(a, n).escaped && LexTo(a, n).quote.None? && !IsQuote(a[n])
    ensures Progress(content, offset, a, n) == Progress(content, offset, a, n + 1)
    ensures !LexTo(a, n + 1).escaped
  {
    hide Strip, StripAll, CutBy, LexTo, Nest, TopComma, ToCome, EndsAtCloser, EndsAtLimit, StandsIn, NeverBelow, Plained;
    var c, next := CutBy(a, Plained(a), n), CutBy(a, Plained(a), n + 1);
    LexNext(a, n);
    CutByNext(a, Plained(a), n);
    ToComeOutside(content, offset, a, n, c.start);
    var rest := ToCome(content, offset, a, n + 1, next.start);
    if TopComma(Plained(a), n) {
      assert next.parts == c.parts + [a[c.start..n]] && next.start == n + 1;
      PushMoves(c.parts, a[c.start..n], rest);
    }
    assert Progress(content, offset, a, n + 1) == StripAll(next.parts) + rest;
  }

  lemma PushMoves(parts: seq<string>, part: string, rest: seq<string>)
    ensures StripAll(parts) + ([Strip(part)] + rest) == StripAll(parts + [part]) + rest
  {
    hide Strip;
    StripAllPush(parts, part);
  }

  lemma ToComeOutside(content: string, offset: nat, a: string, n: nat, start: nat)
    requires Scanned(content, offset, a) && start <= n < |a|
    requires !LexTo(a, n).escaped && LexTo(a, n).quote.None? && !IsQuote(a[n])
    ensures ToCome(content, offset, a, n, start) ==
      if TopComma(Plained(a), n) then [Strip(a[start..n])] + ToCome(content, offset, a, n + 1, n + 1)
      else ToCome(content, offset, a, n + 1, start)
  {
    hide Strip, LexTo, StandsIn, EndsAtCloser, EndsAtLimit, Nest, ArgsFrom, Slice;
    WithinLimit(content, offset, a, n);
    var m := Plained(a);
    LexNext(a, n);
    assert a[n] == m[n];
    assert Nest(m, n) >= 0 && Nest(m, n + 1) >= 0;
    NestNext(m, n);
    SliceOfArguments(content, offset, a, start, n);
    ArgsOutside(content, ScanEnd(content, offset), offset + n, Nest(m, n), offset + start);
  }

  lemma ArgsOutside(content: string, end: nat, i: nat, depth: nat, start: nat)
    requires i < end <= |content| && !IsQuote(content[i]) && (IsCloser(content[i]) ==> depth > 0)
    ensures ArgsFrom(content, end, i, depth, None, start) ==
      if content[i] == ',' && depth == 0 then
        [Strip(Slice(content, start, i))] + ArgsFrom(content, end, i + 1, depth, None, i + 1)
      else ArgsFrom(content, end, i + 1,
                    if IsOpener(content[i]) then depth + 1 else if IsCloser(content[i]) then depth - 1 else depth, None, start)
  {
    hide Strip, Slice;
  }

  lemma {:induction false} ScanFollowsCut(content: string, offset: nat, a: string, n: nat)
    requires Scanned(content, offset, a) && n <= |a| && !LexTo(a, n).escaped
    ensures Progress(content, offset, a, n) == Trimmed(PartsBy(a, Plained(a)))
    decreases |a| - n
  {
    hide Progress, LexTo, StandsIn, NeverBelow, EndsAtCloser, EndsAtLimit, ToCome, Trimmed, PartsBy, CutBy, LastOf;
    if n == |a| {
      ToComeEnds(content, offset, a, CutBy(a, Plained(a), n).start);
      ProgressEnds(content, offset, a, n);
    } else if LexTo(a, n).quote.Some? || IsQuote(a[n]) {
      if NextIn(a, n) <= |a| {
        StepInLiteral(content, offset, a, n);
        ScanFollowsCut(content, offset, a, NextIn(a, n));
      } else {
        LiteralKeeps(a, n);
        ToComeBackslash(content, offset, a, n, CutBy(a, Plained(a), n).start);
        ProgressEnds(content, offset, a, n);
      }
    } else {
      StepOutside(content, offset, a, n);
      ScanFollowsCut(content, offset, a, n + 1);
    }
  }

  lemma ScannedArguments(content: string, offset: nat, a: string)
    requires Scanned(content, offset, a)
    ensures ArgsFrom(content, ScanEnd(content, offset), offset, 0, None, offset) == Trimmed(PartsBy(a, Plained(a)))
  {
    hide Trimmed, PartsBy, Plained, ArgsFrom, StandsIn, NeverBelow, EndsAtCloser, EndsAtLimit;
    ScanFollowsCut(content, offset, a, 0);
    ProgressStarts(content, offset, a);
  }

  lemma ProgressStarts(content: string, offset: nat, a: string)
    requires NeverBelow(a)
    ensures Progress(content, offset, a, 0) == ArgsFrom(content, ScanEnd(content, offset), offset, 0, None, offset)
  {
    hide ArgsFrom, NeverBelow;
    var args := ArgsFrom(content, ScanEnd(content, offset), offset, 0, None, offset);
    assert StripAll([]) + args == args;
  }

  /** For every text and offset, literals closed or not, within the limit or beyond: the arguments
      are the pieces of the stretch that the plain splitter cuts from it with every literal blotted
      out, stripped, a blank last one dropped. */
  lemma ArgumentsOfStretch(content: string, offset: nat)
    ensures
      var a := Stretch(content, offset);
      var parts := PartsBy(a, Plained(a));
      && ArgsFrom(content, ScanEnd(content, offset), offset, 0, None, offset) == Trimmed(parts)
      && JoinCommas(parts) == a && SameLengths(parts, RawParts(Plained(a)))
  {
    var a := Stretch(content, offset);
    PlainedHasCommasOf(a);
    PartsByAreThoseOfMask(a, Plained(a));
    if offset <= |content| {
      StretchIsScanned(content, offset);
      ScannedArguments(content, offset, a);
    } else {
      NothingThere(content, offset);
    }
  }

  lemma NothingThere(content: string, offset: nat)
    requires offset > |content|
    ensures Stretch(content, offset) == "" && Trimmed(PartsBy("", Plained(""))) == []
    ensures ArgsFrom(content, ScanEnd(content, offset), offset, 0, None, offset) == []
  {}

  lemma PlainedHasCommasOf(a: string)
    ensures CommasOf(a, Plained(a))
  {
    hide LexTo;
  }

  // ---- arguments that are closed ----

  /** `a` stands in `content` at `offset`, followed by a closing bracket or the end, within the limit. */
  ghost predicate ArgumentsAt(content: string, offset: nat, a: string) {
    && |a| <= CALL_SCAN_LIMIT && StandsIn(content, offset, a)
    && (offset + |a| < |content| ==> IsCloser(content[offset + |a|]))
  }

  /** Arguments whose literals are closed, and whose brackets outside of them are too. */
  ghost predicate Arguments(a: string) {
    LexTo(a, |a|).quote.None? && Nested(Plained(a))
  }

  /** Nothing stops the scan of closed arguments before their end. */
  lemma NoStopWithin(a: string, w: string, k: nat)
    requires k < |a| <= |w| && w[..|a|] == a && NeverBelow(a)
    ensures !StopsAt(w, k)
  {
    hide LexTo;
    assert a[..k] == w[..k] && a[k] == w[k];
    LexOfPrefix(a, w, k);
    PlainedOfPrefix(a, w, k);
    NestNext(Plained(a), k);
    assert Nest(Plained(a), k + 1) >= 0;
  }

  lemma StopsAfter(a: string, w: string)
    requires |a| < |w| && w[..|a|] == a && Arguments(a) && IsCloser(w[|a|])
    ensures StopsAt(w, |a|)
  {
    hide LexTo, Nest;
    assert a[..|a|] == a;
    LexOfPrefix(a, w, |a|);
    PlainedOfPrefix(a, w, |a|);
  }

  lemma StretchIsArguments(content: string, offset: nat, a: string)
    requires Arguments(a) && ArgumentsAt(content, offset, a)
    ensures Stretch(content, offset) == a
  {
    var w := Slice(content, offset, ScanEnd(content, offset));
    StopIsFirst(w);
    EscapedInside(a, |a|);
    hide LexTo, Nest, StopOf, StopsAt;
    assert |a| <= |w| && w[..|a|] == a;
    forall k | 0 <= k < |a| ensures !StopsAt(w, k) { NoStopWithin(a, w, k); }
    if |a| < |w| {
      StopsAfter(a, w);
    } else {
      assert w == a;
    }
  }

  /** Commas and brackets in closed literals do not count. */
  lemma LiteralsDoNotSplit(content: string, offset: nat, a: string)
    requires Arguments(a) && ArgumentsAt(content, offset, a)
    ensures Stretch(content, offset) == a
    ensures
      var parts := PartsBy(a, Plained(a));
      && ArgsFrom(content, ScanEnd(content, offset), offset, 0, None, offset) == Trimmed(parts)
      && JoinCommas(parts) == a && SameLengths(parts, RawParts(Plained(a)))
  {
    hide JoinCommas, PartsBy, Trimmed, RawParts, ArgsFrom, SameLengths, Arguments, ArgumentsAt, Scanned;
    StretchIsArguments(content, offset, a);
    ArgumentsOfStretch(content, offset);
  }

  // ---- agreement with the plain splitter ----

  /** The text of a call's arguments: no quotes, and brackets that stay open until closed. */
  ghost predicate PlainArguments(a: string) {
    (forall k :: 0 <= k < |a| ==> !IsQuote(a[k])) && Nested(a)
  }

  lemma {:induction false} NoLiterals(a: string, n: nat)
    requires n <= |a| && forall k :: 0 <= k < |a| ==> !IsQuote(a[k])
    ensures LexTo(a, n) == Lexed(None, false)
  {
    if n > 0 { NoLiterals(a, n - 1); }
  }

  lemma {:induction false} CutByItself(a: string, n: nat)
    requires n <= |a|
    ensures CutBy(a, a, n) == CutTo(a, n)
  {
    if n > 0 { CutByItself(a, n - 1); }
  }

  lemma PlainIsArguments(a: string)
    requires PlainArguments(a)
    ensures Arguments(a) && Plained(a) == a && PartsBy(a, a) == RawParts(a)
  {
    hide LexTo, CutBy, CutTo, Nested;
    forall k | 0 <= k < |a| ensures Plained(a)[k] == a[k] { NoLiterals(a, k); }
    assert Plained(a) == a;
    NoLiterals(a, |a|);
    CutByItself(a, |a|);
  }

  lemma {:induction false} NonBlankSize(parts: seq<string>)
    ensures |NonBlank(parts)| <= |parts|
    ensures (forall i :: 0 <= i < |parts| ==> !Blank(parts[i])) ==> NonBlank(parts) == parts
    ensures (exists i :: 0 <= i < |parts| && Blank(parts[i])) ==> |NonBlank(parts)| < |parts|
  {
    if parts != [] {
      var k := |parts| - 1;
      NonBlankSize(parts[..k]);
      assert parts == parts[..k] + [parts[k]];
      if i :| 0 <= i < k && Blank(parts[i]) { assert Blank(parts[..k][i]); }
    }
  }

  /** The string-aware splitter gives the stripped parts of the plain one exactly when no
      argument but the last is blank: it keeps a blank argument between commas, the plain one drops it. */
  lemma SplittersAgreeIffNoBlankArgument(content: string, offset: nat, a: string)
    requires PlainArguments(a) && ArgumentsAt(content, offset, a)
    ensures
      var parts := RawParts(a);
      ArgsFrom(content, ScanEnd(content, offset), offset, 0, None, offset) == StripAll(NonBlank(parts))
      <==> forall i :: 0 <= i < |parts| - 1 ==> !Blank(parts[i])
  {
    hide PlainArguments, ArgumentsAt, Arguments, ArgsFrom, RawParts, PartsBy, Trimmed, NonBlank, JoinCommas, SameLengths;
    PlainIsArguments(a);
    LiteralsDoNotSplit(content, offset, a);
    TrimmedIsNonBlankIff(RawParts(a));
  }

  lemma TrimmedIsNonBlankIff(parts: seq<string>)
    requires parts != []
    ensures Trimmed(parts) == StripAll(NonBlank(parts)) <==> forall i :: 0 <= i < |parts| - 1 ==> !Blank(parts[i])
  {
    hide NonBlank, StripAll, Blank, Trimmed;
    var k := |parts| - 1;
    var front := parts[..k];
    assert parts == front + [parts[k]];
    assert forall i :: 0 <= i < k ==> front[i] == parts[i];
    PushedIff(front, parts[k]);
  }

  lemma PushedIff(front: seq<string>, last: string)
    ensures Trimmed(front + [last]) == StripAll(NonBlank(front + [last])) <==>
      forall i :: 0 <= i < |front| ==> !Blank(front[i])
  {
    hide NonBlank, StripAll, Blank, Trimmed, Strip;
    AllKeptIff(front);
    LastPart(front, last);
    SameEnd(StripAll(front), StripAll(NonBlank(front)), if Blank(last) then [] else [Strip(last)]);
  }

  lemma SameEnd<T>(a: seq<T>, b: seq<T>, end: seq<T>)
    ensures a + end == b + end <==> a == b
  {
    if a + end == b + end {
      assert a == (a + end)[..|a|] == (b + end)[..|b|] == b;
    }
  }

  lemma AllKeptIff(parts: seq<string>)
    ensures StripAll(parts) == StripAll(NonBlank(parts)) <==> forall i :: 0 <= i < |parts| ==> !Blank(parts[i])
  {
    hide Blank;
    NonBlankSize(parts);
  }

  lemma LastPart(front: seq<string>, last: string)
    ensures
      var end := if Blank(last) then [] else [Strip(last)];
      && Trimmed(front + [last]) == StripAll(front) + end
      && StripAll(NonBlank(front + [last])) == StripAll(NonBlank(front)) + end
  {
    hide Strip, NonBlank, StripAll;
    assert (front + [last])[..|front|] == front;
    NonBlankPush(front, last);
    StripAllPush(NonBlank(front), last);
    assert NonBlank(front) + [] == NonBlank(front);
  }

  lemma NonBlankPush(front: seq<string>, x: string)
    ensures NonBlank(front + [x]) == NonBlank(front) + if Blank(x) then [] else [x]
  {
    assert (front + [x])[..|front|] == front;
  }

  // ---- well-bracketed arguments qualify ----

  lemma {:induction false} NestOfConcat(s: string, t: string, n: nat)
    requires n <= |t|
    ensures Nest(s + t, |s| + n) == Nest(s, |s|) + Nest(t, n)
  {
    if n == 0 { NestOfPrefix(s + t, s, |s|); } else { NestOfConcat(s, t, n - 1); }
  }

  lemma NestedConcat(s: string, t: string)
    requires Nested(s) && Nested(t)
    ensures Nested(s + t)
  {
    NestOfConcat(s, t, |t|);
    forall n: nat | n <= |s + t| ensures Nest(s + t, n) >= 0 {
      if n <= |s| { NestOfPrefix(s + t, s, n); } else { NestOfConcat(s, t, n - |s|); }
    }
  }

  lemma NestedGroup(open: char, body: string)
    requires IsOpener(open) && Nested(body)
    ensures Nested([open] + body + [CloserOf(open)])
  {
    var t := [open] + body;
    var all := t + [CloserOf(open)];
    assert Nest([open], 1) == 1;
    forall n: nat | n <= |all| ensures Nest(all, n) >= 0 && (n == |all| ==> Nest(all, n) == 0) {
      if 1 <= n <= |t| {
        NestOfPrefix(all, t, n);
        NestOfConcat([open], body, n - 1);
      } else if n == |all| {
        NestOfConcat(t, [CloserOf(open)], 1);
        NestOfConcat([open], body, |body|);
        assert Nest([CloserOf(open)], 1) == -1;
      }
    }
  }

  lemma {:induction false} FormNests(f: Form)
    requires f.Valid()
    ensures Nested(f.Text())
    decreases f
  {
    match f
    case Nil =>
    case Plain(c, rest) =>
      FormNests(rest);
      assert Nest([c], 1) == 0;
      NestedConcat([c], rest.Text());
    case Group(open, body, after) =>
      FormNests(body);
      FormNests(after);
      hide Nested;
      NestedGroup(open, body.Text());
      NestedConcat([open] + body.Text() + [CloserOf(open)], after.Text());
  }

  /** Every well-bracketed text without quotes is within reach of the agreement above. */
  lemma WellBracketedIsPlain(a: string)
    requires WellBracketed(a) && forall k :: 0 <= k < |a| ==> !IsQuote(a[k])
    ensures PlainArguments(a)
  {
    var f: Form :| f.Valid() && f.Text() == a;
    FormNests(f);
  }

  /** A blank argument on which the two disagree. */
  lemma BlankArgumentIsKept()
    ensures
      var content := "a,,b)";
      && ArgsFrom(content, ScanEnd(content, 0), 0, 0, None, 0) == ["a", "", "b"]
      && StripAll(NonBlank(RawParts("a,,b"))) == ["a", "b"]
  {
    var content := "a,,b)";
    ShortSlices();
    StripShort();
    BlankParts();
    hide ArgsFrom, Slice, Strip, RawParts, NonBlank, StripAll;
    ArgsOutside(content, 5, 0, 0, 0);
    ArgsOutside(content, 5, 1, 0, 0);
    ArgsOutside(content, 5, 2, 0, 2);
    ArgsOutside(content, 5, 3, 0, 3);
    ArgsAtCloser(content, 5, 4, 3);
    assert ["a"] + ([""] + ["b"]) == ["a", "", "b"];
  }

  lemma ArgsAtCloser(content: string, end: nat, i: nat, start: nat)
    requires i < end <= |content| && IsCloser(content[i])
    ensures ArgsFrom(content, end, i, 0, None, start) == Tail(content, start, i)
  {
    hide Tail;
  }

  lemma ShortSlices()
    ensures Slice("a,,b)", 0, 1) == "a" && Slice("a,,b)", 2, 2) == "" && Slice("a,,b)", 3, 4) == "b"
  {}

  lemma StripShort()
    ensures Strip("") == "" && Strip("a") == "a" && Strip("b") == "b"
  {}

  lemma RawPartsShort()
    ensures RawParts("a,,b") == ["a", "", "b"]
  {
    var a := "a,,b";
    assert a[0..1] == "a" && a[2..2] == "" && a[3..] == "b";
    assert Nest(a, 1) == 0 && Nest(a, 2) == 0 && Nest(a, 3) == 0;
    CutNext(a, 0);
    CutNext(a, 1);
    CutNext(a, 2);
    CutNext(a, 3);
    assert CutTo(a, 0) == Cut([], 0);
    hide CutTo, Nest;
  }

  lemma BlankParts()
    ensures StripAll(NonBlank(RawParts("a,,b"))) == ["a", "b"]
  {
    RawPartsShort();
    var parts := ["a", "", "b"];
    StripShort();
    hide Strip, RawParts;
    NonBlankPush([], "a");
    NonBlankPush(["a"], "");
    NonBlankPush(["a", ""], "b");
    assert [] + ["a"] == ["a"] && ["a"] + [""] == ["a", ""] && ["a", ""] + ["b"] == parts;
    assert NonBlank(parts) == ["a", "b"];
  }

  // ---- what stays in one argument, in plain terms ----

  predicate Quote(c: char) { c == '\'' || c == '"' || c == '`' }

  /** A quote, none of its kind and no backslash, and the quote again. */
  predicate Literal(content: string, i: nat, k: nat) {
    i < k < |content| && Quote(content[i]) && content[k] == content[i]
    && forall j :: i < j < k ==> content[j] != content[i] && content[j] != '\\'
  }

  /** Between `offset` and `i` there is no quote, and never one more bracket closed than opened. */
  ghost predicate PlainUpTo(content: string, offset: nat, i: nat)
    requires offset <= i <= |content|
  {
    && (forall j :: offset <= j < i ==> !Quote(content[j]))
    && forall n: nat :: offset <= n <= i ==> Balance(content, n) >= Balance(content, offset)
  }

  /** Within the scan limit, a bracket with no other bracket and no quote in it, or a literal. */
  ghost predicate Together(content: string, offset: nat, i: nat, k: nat) {
    && offset <= i < k < |content| && k < offset + 4000 && PlainUpTo(content, offset, i)
    && (Literal(content, i, k) || (Pocket(content, i, k) && forall j :: i < j < k ==> !Quote(content[j])))
  }

  /** The first `n` characters are those of the content from `offset` on. */
  ghost predicate Shows(w: string, content: string, offset: nat, n: nat) {
    n <= |w| && offset + n <= |content| && forall j {:trigger w[j]} :: 0 <= j < n ==> w[j] == content[offset + j]
  }

  lemma WindowShows(content: string, offset: nat, k: nat)
    requires offset <= k < |content| && k < offset + 4000
    ensures Shows(Slice(content, offset, ScanEnd(content, offset)), content, offset, k - offset + 1)
  {}

  /** What is known of the window up to and including its `k`-th character. */
  ghost predicate Uncounted(w: string, i: nat, k: nat) {
    && i <= k < |w|
    && (forall n :: 0 <= n <= k ==> !StopsAt(w, n))
    && forall j :: i <= j <= k ==> !TopComma(Plained(w), j)
  }

  lemma BalanceNext(text: string, n: nat)
    requires n < |text|
    ensures Balance(text, n + 1) == Balance(text, n) + if IsOpener(text[n]) then 1 else if IsCloser(text[n]) then -1 else 0
  {}

  lemma LexOfNone(w: string)
    ensures LexTo(w, 0) == Lexed(None, false)
  {}

  lemma {:induction false} LexPlain(content: string, offset: nat, w: string, i: nat, n: nat)
    requires n <= i <= |w| && offset + i <= |content| && PlainUpTo(content, offset, offset + i)
    requires Shows(w, content, offset, i)
    ensures LexTo(w, n) == Lexed(None, false)
    ensures Nest(Plained(w), n) == Balance(content, offset + n) - Balance(content, offset)
  {
    hide LexTo, Nest, Balance;
    if n > 0 {
      LexPlain(content, offset, w, i, n - 1);
      assert !Quote(content[offset + (n - 1)]) && w[n - 1] == content[offset + (n - 1)];
      NestNext(Plained(w), n - 1);
      BalanceNext(content, offset + (n - 1));
      LexNext(w, n - 1);
      assert Plained(w)[n - 1] == w[n - 1];
    } else {
      NestOfNone(Plained(w));
      LexOfNone(w);
    }
  }

  lemma NoStopBefore(content: string, offset: nat, w: string, i: nat, n: nat)
    requires n < i <= |w| && offset + i <= |content| && PlainUpTo(content, offset, offset + i)
    requires Shows(w, content, offset, i)
    ensures !StopsAt(w, n)
  {
    LexPlain(content, offset, w, i, n);
    hide LexTo, Nest, Plained;
    assert Balance(content, offset + n + 1) >= Balance(content, offset);
    assert w[n] == content[offset + n];
  }

  /** Inside a literal that begins at `i`. */
  lemma {:induction false} LexLiteral(w: string, i: nat, k: nat, n: nat)
    requires Literal(w, i, k) && i < n <= k && LexTo(w, i) == Lexed(None, false)
    ensures LexTo(w, n) == Lexed(Some(w[i]), false)
  {
    hide LexTo;
    if n > i + 1 { LexLiteral(w, i, k, n - 1); }
    LexNext(w, n - 1);
    hide Literal;
  }

  lemma NoStopInLiteral(w: string, n: nat)
    requires n < |w| && (LexTo(w, n).quote.Some? || Quote(w[n]))
    ensures !StopsAt(w, n) && !TopComma(Plained(w), n)
  {
    hide LexTo, Nest;
    assert Plained(w)[n] == 'x';
  }

  lemma LiteralIsUncounted(content: string, offset: nat, w: string, i: nat, k: nat)
    requires i < k < |w| && offset + k < |content| && PlainUpTo(content, offset, offset + i)
    requires Shows(w, content, offset, k + 1)
    requires Literal(content, offset + i, offset + k)
    ensures Uncounted(w, i, k)
  {
    hide LexTo, StopsAt, TopComma, Plained, PlainUpTo;
    LexPlain(content, offset, w, i, i);
    LiteralOfWindow(content, offset, w, i, k);
    forall n | 0 <= n <= k ensures !StopsAt(w, n) && (n >= i ==> !TopComma(Plained(w), n)) {
      if n < i {
        NoStopBefore(content, offset, w, i, n);
      } else {
        if n > i { LexLiteral(w, i, k, n); }
        NoStopInLiteral(w, n);
      }
    }
  }

  lemma LiteralOfWindow(content: string, offset: nat, w: string, i: nat, k: nat)
    requires i < k < |w| && offset + k < |content| && Literal(content, offset + i, offset + k)
    requires Shows(w, content, offset, k + 1)
    ensures Literal(w, i, k)
  {
    forall j | i < j < k ensures w[j] != w[i] && w[j] != '\\' { assert w[j] == content[offset + j]; }
  }

  lemma PocketIsUncounted(content: string, offset: nat, w: string, i: nat, k: nat)
    requires i < k < |w| && offset + k < |content| && PlainUpTo(content, offset, offset + i)
    requires Shows(w, content, offset, k + 1)
    requires Pocket(content, offset + i, offset + k) && forall j :: offset + i < j < offset + k ==> !Quote(content[j])
    ensures Uncounted(w, i, k)
  {
    PlainThroughPocket(content, offset, offset + i, offset + k);
    assert PlainUpTo(content, offset, offset + i);
    hide LexTo, StopsAt, TopComma, Plained, PlainUpTo, Nest, Balance;
    forall n | 0 <= n <= k ensures !StopsAt(w, n) && (n >= i ==> !TopComma(Plained(w), n)) {
      if n < k { NoStopBefore(content, offset, w, k, n); }
      if n >= i { InPocket(content, offset, w, i, k, n); }
    }
  }

  lemma InPocket(content: string, offset: nat, w: string, i: nat, k: nat, n: nat)
    requires i <= n <= k < |w| && offset + k < |content| && PlainUpTo(content, offset, offset + k)
    requires Shows(w, content, offset, k + 1)
    requires Pocket(content, offset + i, offset + k)
    ensures !TopComma(Plained(w), n) && (n == k ==> !StopsAt(w, n))
  {
    hide LexTo, Nest, Balance, Plained, TopComma, StopsAt;
    LexPlain(content, offset, w, k, n);
    if n > i {
      BalanceInPocket(content, offset + i, offset + k, offset + n);
      assert Balance(content, offset + i) >= Balance(content, offset);
      NestedDecides(w, n);
    } else {
      EndOfPocket(content, offset + i, offset + k);
      assert w[n] == content[offset + n];
      NoCommaThere(w, n);
    }
  }

  lemma NestedDecides(w: string, n: nat)
    requires n < |w| && Nest(Plained(w), n) != 0
    ensures !TopComma(Plained(w), n) && !StopsAt(w, n)
  {
    hide LexTo, Nest, Plained;
  }

  lemma NoCommaThere(w: string, n: nat)
    requires n < |w| && w[n] != ','
    ensures !TopComma(Plained(w), n)
  {
    hide LexTo, Nest;
  }

  lemma EndOfPocket(content: string, i: nat, k: nat)
    requires Pocket(content, i, k)
    ensures content[i] != ',' && content[k] != ','
  {}

  lemma PlainThroughPocket(content: string, offset: nat, i: nat, k: nat)
    requires offset <= i && Pocket(content, i, k) && PlainUpTo(content, offset, i)
    requires forall j :: i < j < k ==> !Quote(content[j])
    ensures PlainUpTo(content, offset, k)
  {
    forall n: nat | offset <= n <= k ensures Balance(content, n) >= Balance(content, offset) {
      if n > i { BalanceInPocket(content, i, k, n); }
    }
  }

  /** A stretch begins with what is uncounted in the window, and is masked as the window there. */
  lemma StretchHolds(content: string, offset: nat, i: nat, k: nat)
    requires var w := Slice(content, offset, ScanEnd(content, offset)); Uncounted(w, i, k)
    ensures
      var w, a := Slice(content, offset, ScanEnd(content, offset)), Stretch(content, offset);
      k < |a| && a[..k + 1] == w[..k + 1] && forall j :: i <= j <= k ==> !TopComma(Plained(a), j)
  {
    var w, a := Slice(content, offset, ScanEnd(content, offset)), Stretch(content, offset);
    StopIsFirst(w);
    hide StopsAt, LexTo, TopComma, StopOf, Plained;
    assert StopOf(w) > k;
    StretchBegins(content, offset, k);
    forall j | i <= j <= k ensures !TopComma(Plained(a), j) {
      assert a[..j + 1] == a[..k + 1][..j + 1] && w[..j + 1] == w[..k + 1][..j + 1];
      SameTopComma(a, w, j);
    }
  }

  lemma StretchBegins(content: string, offset: nat, k: nat)
    requires var w := Slice(content, offset, ScanEnd(content, offset)); k < |w| && k < StopOf(w) <= |w|
    ensures
      var w, a := Slice(content, offset, ScanEnd(content, offset)), Stretch(content, offset);
      k < |a| && a[..k + 1] == w[..k + 1]
  {
    hide StopOf, LexTo;
    var end := ScanEnd(content, offset);
    var w, a := Slice(content, offset, end), Stretch(content, offset);
    if StopOf(w) < |w| {
      assert w[..StopOf(w)][..k + 1] == w[..k + 1];
    } else if LexTo(w, |w|).escaped {
      if end < |content| {
        SliceOneOn(content, offset, end);
        assert (w + [content[end]])[..k + 1] == w[..k + 1];
      } else {
        SameSlice(content, offset, end);
      }
    }
  }

  lemma SameTopComma(a: string, w: string, j: nat)
    requires j < |a| && j < |w| && a[..j + 1] == w[..j + 1]
    ensures TopComma(Plained(a), j) <==> TopComma(Plained(w), j)
  {
    hide LexTo, Nest;
    assert a[..j] == a[..j + 1][..j] && w[..j] == w[..j + 1][..j];
    PlainedOfPrefix(a, w, j);
    PlainedOfPrefix(a, w, j + 1);
    assert Plained(a)[j] == Plained(a)[..j + 1][j] && Plained(w)[j] == Plained(w)[..j + 1][j];
  }

  ghost predicate UncutBy(mask: string, i: nat, e: nat)
    requires e <= |mask|
  {
    forall j :: i <= j < e ==> !TopComma(mask, j)
  }

  lemma {:induction false} StartIsBeforeBy(text: string, mask: string, i: nat, e: nat)
    requires i <= e <= |text| == |mask| && UncutBy(mask, i, e)
    ensures CutBy(text, mask, e).start <= i
  {
    if e > i { StartIsBeforeBy(text, mask, i, e - 1); }
  }

  lemma {:induction false} UncutIsInOneBy(text: string, mask: string, i: nat, e: nat, n: nat)
    requires i <= e <= n <= |text| == |mask| && UncutBy(mask, i, e)
    ensures CutBy(text, mask, n).start <= i || InOne(CutBy(text, mask, n).parts, text[i..e])
  {
    hide TopComma;
    if n == e {
      StartIsBeforeBy(text, mask, i, e);
    } else {
      UncutIsInOneBy(text, mask, i, e, n - 1);
      var b, c := CutBy(text, mask, n - 1), CutBy(text, mask, n);
      CutByNext(text, mask, n - 1);
      hide CutBy;
      if TopComma(mask, n - 1) {
        if b.start <= i {
          PieceOfSlice(text, b.start, n - 1, i, e);
          assert c.parts[|b.parts|] == text[b.start..n - 1];
        } else {
          var q: nat, o: nat :| q < |b.parts| && StandsAt(b.parts[q], o, text[i..e]);
          assert c.parts[q] == b.parts[q];
        }
      }
    }
  }

  lemma UncutIsInAPartBy(text: string, mask: string, i: nat, e: nat)
    requires i <= e <= |text| == |mask| && UncutBy(mask, i, e)
    ensures InOne(PartsBy(text, mask), text[i..e])
  {
    UncutIsInOneBy(text, mask, i, e, |text|);
    var c := CutBy(text, mask, |text|);
    hide CutBy, UncutBy;
    var parts := PartsBy(text, mask);
    if c.start <= i {
      PieceOfSlice(text, c.start, |text|, i, e);
      assert parts[|c.parts|] == text[c.start..|text|];
    } else {
      var q: nat, o: nat :| q < |c.parts| && StandsAt(c.parts[q], o, text[i..e]);
      assert parts[q] == c.parts[q];
    }
  }

  /** Stripping a part does not touch a piece that neither begins nor ends with a space. */
  lemma StripHolds(part: string, o: nat, piece: string) returns (p: nat)
    requires StandsAt(part, o, piece) && piece != "" && !IsSpace(piece[0]) && !IsSpace(piece[|piece| - 1])
    ensures StandsAt(Strip(part), p, piece)
  {
    StripCuts(part);
    hide Strip;
    var a, b :| part == a + Strip(part) + b && AllSpace(a) && AllSpace(b);
    var n := |piece|;
    assert part[o] == piece[0] && part[o + n - 1] == piece[n - 1];
    var middle := |a| + |Strip(part)|;
    forall t | 0 <= t < |a| ensures IsSpace(part[t]) { assert part[t] == a[t]; }
    forall t | middle <= t < |part| ensures IsSpace(part[t]) { assert part[t] == b[t - middle]; }
    p := o - |a|;
    WithinMiddle(a, Strip(part), b, o, n);
  }

  lemma WithinMiddle(a: string, s: string, b: string, o: nat, n: nat)
    requires |a| <= o && o + n <= |a| + |s|
    ensures (a + s + b)[o..o + n] == s[o - |a|..o - |a| + n]
  {}

  lemma TrimmedHolds(parts: seq<string>, piece: string)
    requires parts != [] && InOne(parts, piece) && piece != "" && !IsSpace(piece[0]) && !IsSpace(piece[|piece| - 1])
    ensures InOne(Trimmed(parts), piece)
  {
    var q: nat, o: nat :| q < |parts| && StandsAt(parts[q], o, piece);
    var p := StripHolds(parts[q], o, piece);
    hide Strip;
    assert Trimmed(parts)[q] == Strip(parts[q]);
  }

  /** What belongs together is in one argument, whole. */
  ghost predicate NoneTornApart(content: string, offset: nat, args: seq<string>) {
    forall i: nat, k: nat :: Together(content, offset, i, k) ==> InOne(args, content[i..k + 1])
  }

  lemma KeptTogether(content: string, offset: nat)
    ensures var a := Stretch(content, offset); NoneTornApart(content, offset, Trimmed(PartsBy(a, Plained(a))))
  {
    hide InOne, Trimmed, PartsBy, Plained, Stretch;
    forall i: nat, k: nat | Together(content, offset, i, k)
      ensures InOne(Trimmed(PartsBy(Stretch(content, offset), Plained(Stretch(content, offset)))), content[i..k + 1])
    {
      TogetherIsKept(content, offset, i, k);
    }
  }

  lemma TogetherIsKept(content: string, offset: nat, i: nat, k: nat)
    requires Together(content, offset, i, k)
    ensures
      var a := Stretch(content, offset);
      InOne(Trimmed(PartsBy(a, Plained(a))), content[i..k + 1])
  {
    hide Stretch, Uncounted, Shows, Together, Slice, UncutBy, IsSpace;
    TogetherIsUncounted(content, offset, i, k);
    StretchPiece(content, offset, i, k);
    PieceIsKept(content, i, k, Stretch(content, offset), i - offset, k - offset + 1);
  }

  lemma TogetherIsUncounted(content: string, offset: nat, i: nat, k: nat)
    requires Together(content, offset, i, k)
    ensures offset <= i < k < |content| && !IsSpace(content[i]) && !IsSpace(content[k])
    ensures
      var w := Slice(content, offset, ScanEnd(content, offset));
      Uncounted(w, i - offset, k - offset) && Shows(w, content, offset, k - offset + 1)
  {
    var w := Slice(content, offset, ScanEnd(content, offset));
    WindowShows(content, offset, k);
    EndsAreNotSpace(content, i, k);
    assert offset + (i - offset) == i && offset + (k - offset) == k;
    hide Slice, Literal, Pocket, PlainUpTo, IsSpace;
    if Literal(content, i, k) {
      LiteralIsUncounted(content, offset, w, i - offset, k - offset);
    } else {
      PocketIsUncounted(content, offset, w, i - offset, k - offset);
    }
  }

  lemma PieceIsKept(content: string, i: nat, k: nat, a: string, from: nat, end: nat)
    requires i <= k < |content| && !IsSpace(content[i]) && !IsSpace(content[k])
    requires from <= end <= |a| && UncutBy(Plained(a), from, end) && a[from..end] == content[i..k + 1]
    ensures InOne(Trimmed(PartsBy(a, Plained(a))), content[i..k + 1])
  {
    hide Trimmed, PartsBy, IsSpace, InOne, Plained, UncutBy;
    UncutIsInAPartBy(a, Plained(a), from, end);
    PieceIsTrimmed(PartsBy(a, Plained(a)), content, i, k);
  }

  lemma PieceIsTrimmed(parts: seq<string>, content: string, i: nat, k: nat)
    requires i <= k < |content| && parts != [] && InOne(parts, content[i..k + 1])
    requires !IsSpace(content[i]) && !IsSpace(content[k])
    ensures InOne(Trimmed(parts), content[i..k + 1])
  {
    hide IsSpace, InOne, Trimmed;
    var piece := content[i..k + 1];
    assert piece != "" && piece[0] == content[i] && piece[|piece| - 1] == content[k];
    TrimmedHolds(parts, piece);
  }

  lemma StretchPiece(content: string, offset: nat, i: nat, k: nat)
    requires offset <= i <= k < |content|
    requires
      var w := Slice(content, offset, ScanEnd(content, offset));
      Uncounted(w, i - offset, k - offset) && Shows(w, content, offset, k - offset + 1)
    ensures
      var a := Stretch(content, offset);
      && k - offset < |a| && UncutBy(Plained(a), i - offset, k - offset + 1)
      && a[i - offset..k - offset + 1] == content[i..k + 1]
  {
    var w, a := Slice(content, offset, ScanEnd(content, offset)), Stretch(content, offset);
    hide Stretch, Slice, StopsAt, TopComma, Plained, LexTo, Nest;
    StretchHolds(content, offset, i - offset, k - offset);
    SamePiece(content, offset, w, a, i, k);
  }

  lemma SamePiece(content: string, offset: nat, w: string, a: string, i: nat, k: nat)
    requires offset <= i <= k < |content| && k - offset < |w| && k - offset < |a|
    requires Shows(w, content, offset, k - offset + 1)
    requires a[..k - offset + 1] == w[..k - offset + 1]
    ensures a[i - offset..k - offset + 1] == content[i..k + 1]
  {
    var x, y := a[i - offset..k - offset + 1], content[i..k + 1];
    forall t | 0 <= t < |x| ensures x[t] == y[t] {
      var j := i - offset + t;
      assert a[j] == a[..k - offset + 1][j] == w[..k - offset + 1][j] == content[offset + j];
    }
  }

  lemma EndsAreNotSpace(content: string, i: nat, k: nat)
    requires i < k < |content| && (Literal(content, i, k) || Pocket(content, i, k))
    ensures !IsSpace(content[i]) && !IsSpace(content[k])
  {
    SpacesAre(content[i]);
    SpacesAre(content[k]);
  }
}
