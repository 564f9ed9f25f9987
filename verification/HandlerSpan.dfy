/** Which lines of a file belong to which route handler (src/attackmap/handler_span.py). */
module HandlerSpan {
  import opened Text
  import opened Wrappers

  const DECORATOR_LOOKUP := 6

  predicate Decorator(line: string) {
    var text := LStrip(line);
    text != [] && text[0] == '@'
  }

  /** The first route line after `line`, in a list in any order. */
  function NextRoute(routes: seq<int>, line: int): (r: Option<int>)
    ensures r.Some? ==> r.value in routes && r.value > line
    ensures forall x :: x in routes && x > line ==> r.Some? && r.value <= x
  {
    if routes == [] then None
    else
      assert forall x :: x in routes <==> x == routes[0] || x in routes[1..];
      var rest := NextRoute(routes[1..], line);
      if routes[0] > line && (rest.None? || routes[0] < rest.value) then Some(routes[0]) else rest
  }

  /** The last route line before `line`, or 0. */
  function PrevRoute(routes: seq<int>, line: int): (r: int)
    requires forall x :: x in routes ==> x >= 1
    ensures r == 0 || (r in routes && r < line)
    ensures r >= 0 && forall x :: x in routes && x < line ==> x <= r
  {
    if routes == [] then 0
    else
      assert forall x :: x in routes <==> x == routes[0] || x in routes[1..];
      var rest := PrevRoute(routes[1..], line);
      if rest < routes[0] < line then routes[0] else rest
  }

  function Max(a: int, b: int): (r: int)
    ensures r >= a && r >= b && (r == a || r == b)
  {
    if a < b then b else a
  }

  function Min(a: int, b: int): (r: int)
    ensures r <= a && r <= b && (r == a || r == b)
  {
    if a < b then a else b
  }

  /** The first character of the line that is not a space is an `@`. */
  ghost predicate AtSign(line: string) {
    exists i :: 0 <= i < |line| && line[i] == '@' && AllSpace(line[..i])
  }

  lemma {:induction false} DecoratorIff(line: string)
    ensures Decorator(line) <==> AtSign(line)
  {
    if line != [] {
      SpacesAre('@');
      if IsSpace(line[0]) {
        DecoratorIff(line[1..]);
        LaterAt(line);
      } else {
        assert AllSpace(line[..0]);
        forall i | 0 < i < |line| ensures !AllSpace(line[..i]) { assert line[..i][0] == line[0]; }
      }
    }
  }

  lemma AllDecorators(lines: seq<string>)
    ensures forall k :: 0 <= k < |lines| ==> (Decorator(lines[k]) <==> AtSign(lines[k]))
  {
    forall k | 0 <= k < |lines| ensures Decorator(lines[k]) <==> AtSign(lines[k]) { DecoratorIff(lines[k]); }
  }

  lemma LaterAt(line: string)
    requires line != [] && IsSpace(line[0]) && line[0] != '@'
    ensures AtSign(line) <==> AtSign(line[1..])
  {
    hide IsSpace;
    var rest := line[1..];
    if i :| 0 <= i < |line| && line[i] == '@' && AllSpace(line[..i]) {
      assert line[..i][1..] == rest[..i - 1] && rest[i - 1] == '@';
      assert forall k :: 0 <= k < i - 1 ==> rest[k] == line[..i][k + 1];
    }
    if i :| 0 <= i < |rest| && rest[i] == '@' && AllSpace(rest[..i]) {
      assert line[..i + 1] == [line[0]] + rest[..i] && line[i + 1] == '@';
    }
  }

  /** The file a handler lives in: its text, every route line in it, and the span cap. */
  datatype File = File(lines: seq<string>, routes: seq<int>, maxSpan: int) {
    ghost predicate Valid() {
      maxSpan >= 1 && forall x :: x in routes ==> x >= 1
    }

    /** How far up a span may reach: not past the previous route, and six lines at most. */
    ghost function Floor(line: int): int
      requires Valid()
    {
      Max(PrevRoute(routes, line), line - 7)
    }

    /** How far down: the cap, the end of the file, and the line before the next route. */
    ghost function Ceiling(line: int): int {
      var cap := Min(|lines|, line - 1 + maxSpan);
      var next := NextRoute(routes, line);
      if next.Some? then Min(cap, next.value - 1) else cap
    }

    ghost predicate Decorated(a: int, b: int)
      requires 0 <= a && b <= |lines|
    {
      forall k :: a <= k < b ==> AtSign(lines[k])
    }

    /** [start, end) is the handler of the route on (1-based) `line`: from the topmost of the
        decorators stacked on it, to the line before the next route's stacked decorators. */
    ghost predicate Span(line: int, start: int, end: int)
      requires Valid() && 1 <= line <= |lines|
    {
      && 0 <= Max(0, Floor(line)) <= start <= line - 1
      && Decorated(start, line - 1)
      && (start > Max(0, Floor(line)) ==> !AtSign(lines[start - 1]))
      && line <= end <= Ceiling(line)
      && (if NextRoute(routes, line).None? then end == Ceiling(line)
          else Decorated(end, Ceiling(line)) && (end > line ==> !AtSign(lines[end - 1])))
    }
  }

  method SpanBounds(line: int, lines: seq<string>, routeLines: seq<int>, maxSpan: int) returns (start: int, end: int)
    requires 1 <= line <= |lines| && maxSpan >= 1
    requires forall x :: x in routeLines ==> x >= 1
    ensures File(lines, routeLines, maxSpan).Span(line, start, end)
  {
    hide Decorator, AtSign;
    AllDecorators(lines);
    var idx := line - 1;
    var next := NextRoute(routeLines, line);
    end := Min(|lines|, line - 1 + maxSpan);
    if next.Some? {
      end := Min(end, next.value - 1);
      ghost var ceiling := end;
      while end - 1 > idx && Decorator(lines[end - 1])
        invariant line <= end <= ceiling
        invariant File(lines, routeLines, maxSpan).Decorated(end, ceiling)
      {
        end := end - 1;
      }
    }
    var prev := PrevRoute(routeLines, line);
    start := idx;
    var limit := Max(prev, idx - DECORATOR_LOOKUP);
    while start - 1 >= limit && Decorator(lines[start - 1])
      invariant Max(0, limit) <= start <= idx
      invariant File(lines, routeLines, maxSpan).Decorated(start, idx)
    {
      start := start - 1;
    }
    start, end := Max(0, start), Max(start + 1, end);
  }

  /** The file alone decides a handler's span. */
  lemma SpanIsUnique(f: File, line: int, s: int, e: int, s': int, e': int)
    requires f.Valid() && 1 <= line <= |f.lines|
    requires f.Span(line, s, e) && f.Span(line, s', e')
    ensures s == s' && e == e'
  {
  }

  /** Listing the routes in another order, or twice, changes no span. */
  lemma OnlyTheSetOfRoutesMatters(f: File, routes: seq<int>, line: int, s: int, e: int)
    requires f.Valid() && 1 <= line <= |f.lines|
    requires forall x :: x in routes <==> x in f.routes
    requires f.Span(line, s, e)
    ensures f.(routes := routes).Valid() && f.(routes := routes).Span(line, s, e)
  {
    assert NextRoute(routes, line) == NextRoute(f.routes, line);
    assert PrevRoute(routes, line) == PrevRoute(f.routes, line);
  }

  /** The spans of two routes on different lines never overlap, even when the cap of the
      upper one lands among the decorators of the lower one. */
  lemma SpansAreDisjoint(f: File, a: int, sa: int, ea: int, b: int, sb: int, eb: int)
    requires f.Valid() && 1 <= a < b <= |f.lines| && a in f.routes && b in f.routes
    requires f.Span(a, sa, ea) && f.Span(b, sb, eb)
    ensures ea <= sb
  {
  }

  /** A decorator stacked on a route, within reach and below the previous route, is in the
      route's own span, hence in no other. */
  lemma StackedDecoratorsAreOwned(f: File, line: int, s: int, e: int, top: int)
    requires f.Valid() && 1 <= line <= |f.lines| && f.Span(line, s, e)
    requires 0 <= f.Floor(line) <= top <= line - 1 && f.Decorated(top, line - 1)
    ensures s <= top
  {}

  /** A span holds its own declaration, reaches at most six lines above it, and covers at most
      `maxSpan` lines from it on. */
  lemma SpanReach(f: File, line: int, s: int, e: int)
    requires f.Valid() && 1 <= line <= |f.lines| && f.Span(line, s, e)
    ensures s <= line - 1 < e
    ensures line - 1 - s <= 6 && e - (line - 1) <= f.maxSpan && 0 <= s && e <= |f.lines|
    ensures forall x :: x in f.routes && x != line ==> !(s <= x - 1 < e)
  {
  }
}
