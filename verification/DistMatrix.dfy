/**
 backend/distmatrix/distmatrix.go: a travel matrix for any number of points, stitched from
 matrix-service calls of at most 25 sources and 25 destinations, or computed from distances.

 The service and the great-circle distance are given functions; cells are exact reals.
 */
module DistMatrix {
  import opened Rounding

  datatype Option<+T> = None | Some(value: T)

  const CHUNK: nat := 25

  /** A matrix entry: math.Inf(1) or a number. */
  datatype Cell = Inf | Finite(value: real)

  /** round(n, 2) and round(n, 1). */
  function Hundredths(x: real): real {
    Round(x * 100.0) as real / 100.0
  }

  function Tenths(x: real): real {
    Round(x * 10.0) as real / 10.0
  }

  lemma RoundingIsClose(x: real)
    ensures x - 0.005 <= Hundredths(x) <= x + 0.005
    ensures x - 0.05 <= Tenths(x) <= x + 0.05
  {
    RoundIsNear(x * 100.0);
    RoundIsNear(x * 10.0);
  }

  function MetresToKm(v: Option<real>): Cell {
    if v.None? then Inf else Finite(Hundredths(v.value / 1000.0))
  }

  function SecondsToMin(v: Option<real>): Cell {
    if v.None? then Inf else Finite(Tenths(v.value / 60.0))
  }

  // ---- The matrix service ----

  /** One call: the points whose coordinates it names, and its sources and destinations as positions among them. */
  datatype Window = Window(coordinates: seq<nat>, sources: seq<nat>, destinations: seq<nat>)

  type Answers = seq<seq<Option<real>>>

  /** What getMapbox makes of a call: metres and seconds, null where there is no route. */
  datatype Reply = Failed | Body(distances: Answers, durations: Answers)

  type Service = Window -> Reply

  predicate Covers(answers: Answers, rows: nat, columns: nat) {
    |answers| >= rows && forall i | 0 <= i < rows :: |answers[i]| >= columns
  }

  predicate HasShape(r: Reply, rows: nat, columns: nat) {
    r.Body? && Covers(r.distances, rows, columns) && Covers(r.durations, rows, columns)
  }

  /** Whether a reply has an entry for every pair; the stitching loop panics on one that has not. */
  predicate Full(r: Reply, w: Window) {
    HasShape(r, |w.sources|, |w.destinations|)
  }

  // ---- The windows ----

  /** rangeIdx. */
  method RangeIdx(start: nat, endExclusive: nat) returns (out: seq<nat>)
    requires start <= endExclusive
    ensures out == Range(start, endExclusive)
  {
    out := [];
    for i := start to endExclusive
      invariant out == Range(start, i)
    {
      out := out + [i];
    }
  }

  function Range(start: nat, endExclusive: nat): seq<nat>
    requires start <= endExclusive
  {
    seq(endExclusive - start, k requires 0 <= k => start + k)
  }

  function Min(a: nat, b: nat): nat {
    if a <= b then a else b
  }

  /** Windows along one side. */
  function Chunks(n: nat): nat {
    (n + CHUNK - 1) / CHUNK
  }

  /** The a-th window's indices along one side. */
  function Chunk(n: nat, a: nat): seq<nat> {
    if a * CHUNK < n then Range(a * CHUNK, Min(a * CHUNK + CHUNK, n)) else []
  }

  /** Every chunked call names all n points and asks for some of them. */
  function WindowAt(n: nat, a: nat, b: nat): Window {
    Window(Range(0, n), Chunk(n, a), Chunk(n, b))
  }

  /** The windows called before window (a, b), row by row. */
  function WindowsBefore(n: nat, a: nat, b: nat): seq<Window>
    decreases a, b
  {
    if b > 0 then WindowsBefore(n, a, b - 1) + [WindowAt(n, a, b - 1)]
    else if a > 0 then WindowsBefore(n, a - 1, Chunks(n))
    else []
  }

  function Windows(n: nat): seq<Window> {
    WindowsBefore(n, Chunks(n), 0)
  }

  const MAPBOX: string := "mapbox"
  const HAVERSINE: string := "haversine"

  // ---- What a run of calls comes to ----

  type Matrix = seq<seq<Cell>>
  datatype Outcome = Table(distances: Matrix, durations: Matrix, provider: string) | Error | Panic

  function Tabulate(n: nat, cell: (nat, nat) -> Cell): Matrix {
    seq(n, i requires 0 <= i => seq(n, j requires 0 <= j => cell(i, j)))
  }

  /** The first call that does not bring a full body ends the run. */
  function Trouble(service: Service, calls: seq<Window>): Option<Outcome> {
    if calls == [] then None
    else
      var n := |calls| - 1;
      var before := Trouble(service, calls[..n]);
      if before.Some? then before
      else if service(calls[n]).Failed? then Some(Error)
      else if !Full(service(calls[n]), calls[n]) then Some(Panic)
      else None
  }

  /** The calls of a run up to the one that ends it. */
  function Made(service: Service, calls: seq<Window>): seq<Window> {
    if calls == [] || Trouble(service, calls[..|calls| - 1]).None? then calls
    else Made(service, calls[..|calls| - 1])
  }

  function Entry(answers: Answers, i: nat, j: nat): Option<real> {
    if i < |answers| && j < |answers[i]| then answers[i][j] else None
  }

  function DistanceCell(n: nat, service: Service, s: nat, d: nat): Cell {
    var r := service(WindowAt(n, s / CHUNK, d / CHUNK));
    if r.Body? then MetresToKm(Entry(r.distances, s % CHUNK, d % CHUNK)) else Inf
  }

  function DurationCell(n: nat, service: Service, s: nat, d: nat): Cell {
    var r := service(WindowAt(n, s / CHUNK, d / CHUNK));
    if r.Body? then SecondsToMin(Entry(r.durations, s % CHUNK, d % CHUNK)) else Inf
  }

  function Stitched(n: nat, service: Service): Outcome {
    var trouble := Trouble(service, Windows(n));
    if trouble.Some? then trouble.value
    else Table(Tabulate(n, (s: nat, d: nat) => DistanceCell(n, service, s, d)),
               Tabulate(n, (s: nat, d: nat) => DurationCell(n, service, s, d)), MAPBOX)
  }

  // ---- The stitching loops ----

  method NewMatrix(n: nat, fill: Cell) returns (m: array2<Cell>)
    ensures fresh(m) && m.Length0 == n && m.Length1 == n
    ensures forall i, j | 0 <= i < n && 0 <= j < n :: m[i, j] == fill
  {
    m := new Cell[n, n]((i, j) => fill);
  }

  /** The two inner loops: one body's cells, to where its window lies. */
  method CopyWindow(distances: array2<Cell>, durations: array2<Cell>, s0: nat, s1: nat, d0: nat, d1: nat, body: Reply)
    requires distances != durations
    requires s0 <= s1 <= distances.Length0 == durations.Length0
    requires d0 <= d1 <= distances.Length1 == durations.Length1
    requires HasShape(body, s1 - s0, d1 - d0)
    modifies distances, durations
    ensures forall s, d | 0 <= s < distances.Length0 && 0 <= d < distances.Length1 ::
      distances[s, d] == if s0 <= s < s1 && d0 <= d < d1 then MetresToKm(Entry(body.distances, s - s0, d - d0))
        else old(distances[s, d])
    ensures forall s, d | 0 <= s < durations.Length0 && 0 <= d < durations.Length1 ::
      durations[s, d] == if s0 <= s < s1 && d0 <= d < d1 then SecondsToMin(Entry(body.durations, s - s0, d - d0))
        else old(durations[s, d])
  {
    var sources := RangeIdx(s0, s1);
    var destinations := RangeIdx(d0, d1);
    for i := 0 to |sources|
      invariant forall s, d | 0 <= s < distances.Length0 && 0 <= d < distances.Length1 ::
        distances[s, d] == if s0 <= s < s0 + i && d0 <= d < d1
          then MetresToKm(Entry(body.distances, s - s0, d - d0)) else old(distances[s, d])
      invariant forall s, d | 0 <= s < durations.Length0 && 0 <= d < durations.Length1 ::
        durations[s, d] == if s0 <= s < s0 + i && d0 <= d < d1
          then SecondsToMin(Entry(body.durations, s - s0, d - d0)) else old(durations[s, d])
    {
      for j := 0 to |destinations|
        invariant forall s, d | 0 <= s < distances.Length0 && 0 <= d < distances.Length1 ::
          distances[s, d] == if (s0 <= s < s0 + i && d0 <= d < d1) || (s == s0 + i && d0 <= d < d0 + j)
            then MetresToKm(Entry(body.distances, s - s0, d - d0)) else old(distances[s, d])
        invariant forall s, d | 0 <= s < durations.Length0 && 0 <= d < durations.Length1 ::
          durations[s, d] == if (s0 <= s < s0 + i && d0 <= d < d1) || (s == s0 + i && d0 <= d < d0 + j)
            then SecondsToMin(Entry(body.durations, s - s0, d - d0)) else old(durations[s, d])
      {
        distances[sources[i], destinations[j]] := MetresToKm(body.distances[i][j]);
        durations[sources[i], destinations[j]] := SecondsToMin(body.durations[i][j]);
      }
    }
  }

  function Rows(m: array2<Cell>): Matrix
    reads m
  {
    seq(m.Length0, i requires 0 <= i < m.Length0 reads m =>
      seq(m.Length1, j requires 0 <= j < m.Length1 reads m => m[i, j]))
  }

  /**
   What is settled before window (a, b): all of the rows above, and in this row of windows the
   columns to the left.
   */
  predicate Settled(s: nat, d: nat, a: nat, b: nat) {
    s / CHUNK < a || (s / CHUNK == a && d / CHUNK < b)
  }

  ghost predicate StitchedSoFar(distances: array2<Cell>, durations: array2<Cell>, n: nat, service: Service, a: nat,
      b: nat)
    requires distances.Length0 == n && distances.Length1 == n && durations.Length0 == n && durations.Length1 == n
    reads distances, durations
  {
    forall s, d | 0 <= s < n && 0 <= d < n ::
      && distances[s, d] == (if Settled(s, d, a, b) then DistanceCell(n, service, s, d) else Inf)
      && durations[s, d] == (if Settled(s, d, a, b) then DurationCell(n, service, s, d) else Inf)
  }

  /** The chunked branch of buildMapboxMatrix; calls are the windows asked for, in order. */
  method Stitch(n: nat, service: Service) returns (outcome: Outcome, calls: seq<Window>)
    ensures outcome == Stitched(n, service)
    ensures calls == Made(service, Windows(n))
  {
    var distances := NewMatrix(n, Inf);
    var durations := NewMatrix(n, Inf);
    calls := [];
    var srcStart := 0;
    var a := 0;
    while srcStart < n
      invariant srcStart == a * CHUNK && a <= Chunks(n)
      invariant calls == WindowsBefore(n, a, 0) && Trouble(service, calls).None?
      invariant StitchedSoFar(distances, durations, n, service, a, 0)
      decreases n - srcStart
    {
      var trouble;
      trouble, calls := StitchRow(distances, durations, n, service, a, calls);
      if trouble.Some? {
        return trouble.value, calls;
      }
      a := a + 1;
      srcStart := srcStart + CHUNK;
    }
    assert a == Chunks(n);
    NoTroubleBefore(service, Windows(n));
    ReadOff(n, service, distances, durations);
    outcome := Table(Rows(distances), Rows(durations), MAPBOX);
  }

  /** The loop over the destinations, for the a-th window of sources. */
  method StitchRow(distances: array2<Cell>, durations: array2<Cell>, n: nat, service: Service, a: nat,
      before: seq<Window>)
    returns (trouble: Option<Outcome>, calls: seq<Window>)
    requires distances != durations
    requires distances.Length0 == n && distances.Length1 == n && durations.Length0 == n && durations.Length1 == n
    requires a < Chunks(n) && StitchedSoFar(distances, durations, n, service, a, 0)
    requires before == WindowsBefore(n, a, 0) && Trouble(service, before).None?
    modifies distances, durations
    ensures trouble.Some? ==>
      trouble.value == Stitched(n, service) && !trouble.value.Table? && calls == Made(service, Windows(n))
    ensures trouble.None? ==> StitchedSoFar(distances, durations, n, service, a + 1, 0)
    ensures trouble.None? ==> calls == WindowsBefore(n, a + 1, 0) && Trouble(service, calls).None?
  {
    calls := before;
    var srcStart, dstStart := a * CHUNK, 0;
    var b := 0;
    while dstStart < n
      invariant dstStart == b * CHUNK && b <= Chunks(n)
      invariant calls == WindowsBefore(n, a, b) && Trouble(service, calls).None?
      invariant StitchedSoFar(distances, durations, n, service, a, b)
      decreases n - dstStart
    {
      var w := WindowFrom(n, srcStart, dstStart);
      SameWindow(n, a, b);
      var body := service(w);
      calls := calls + [w];
      if !Full(body, w) {
        StoppedAt(n, service, a, b);
        return Some(if body.Failed? then Error else Panic), calls;
      }
      CopyBody(distances, durations, n, service, a, b, body);
      b := b + 1;
      dstStart := dstStart + CHUNK;
    }
    assert b == Chunks(n);
    return None, calls;
  }

  /** The indices of the window whose corner is at a pair of points. */
  function WindowFrom(n: nat, srcStart: nat, dstStart: nat): Window
    requires srcStart <= n && dstStart <= n
  {
    Window(Range(0, n), Range(srcStart, Min(srcStart + CHUNK, n)), Range(dstStart, Min(dstStart + CHUNK, n)))
  }

  lemma SameWindow(n: nat, a: nat, b: nat)
    requires a < Chunks(n) && b < Chunks(n)
    ensures WindowFrom(n, a * CHUNK, b * CHUNK) == WindowAt(n, a, b)
  {
  }

  method CopyBody(distances: array2<Cell>, durations: array2<Cell>, n: nat, service: Service, a: nat, b: nat,
      body: Reply)
    requires distances != durations
    requires distances.Length0 == n && distances.Length1 == n && durations.Length0 == n && durations.Length1 == n
    requires a < Chunks(n) && b < Chunks(n)
    requires body == service(WindowAt(n, a, b)) && Full(body, WindowAt(n, a, b))
    requires StitchedSoFar(distances, durations, n, service, a, b)
    modifies distances, durations
    ensures StitchedSoFar(distances, durations, n, service, a, b + 1)
  {
    CopyWindow(distances, durations, a * CHUNK, Min(a * CHUNK + CHUNK, n), b * CHUNK, Min(b * CHUNK + CHUNK, n), body);
    forall s, d | 0 <= s < n && 0 <= d < n
      ensures distances[s, d] == if Settled(s, d, a, b + 1) then DistanceCell(n, service, s, d) else Inf
      ensures durations[s, d] == if Settled(s, d, a, b + 1) then DurationCell(n, service, s, d) else Inf
    {
      ChunkOf(s, a);
      ChunkOf(d, b);
    }
  }

  lemma ChunkOf(s: nat, a: nat)
    ensures s / CHUNK == a <==> a * CHUNK <= s < a * CHUNK + CHUNK
    ensures s / CHUNK == a ==> s % CHUNK == s - a * CHUNK
  {
  }

  lemma StoppedAt(n: nat, service: Service, a: nat, b: nat)
    requires a < Chunks(n) && b < Chunks(n)
    requires Trouble(service, WindowsBefore(n, a, b)).None?
    requires !Full(service(WindowAt(n, a, b)), WindowAt(n, a, b))
    ensures Stitched(n, service) == if service(WindowAt(n, a, b)).Failed? then Error else Panic
    ensures WindowsBefore(n, a, b + 1) == Made(service, Windows(n))
  {
    WindowsGrow(n, a, b + 1);
    TroubleStays(service, WindowsBefore(n, a, b + 1), Windows(n));
  }

  lemma ReadOff(n: nat, service: Service, distances: array2<Cell>, durations: array2<Cell>)
    requires distances.Length0 == n && distances.Length1 == n && durations.Length0 == n && durations.Length1 == n
    requires StitchedSoFar(distances, durations, n, service, Chunks(n), 0)
    ensures Rows(distances) == Tabulate(n, (s: nat, d: nat) => DistanceCell(n, service, s, d))
    ensures Rows(durations) == Tabulate(n, (s: nat, d: nat) => DurationCell(n, service, s, d))
  {
    forall s | 0 <= s < n
      ensures Rows(distances)[s] == Tabulate(n, (s: nat, d: nat) => DistanceCell(n, service, s, d))[s]
      ensures Rows(durations)[s] == Tabulate(n, (s: nat, d: nat) => DurationCell(n, service, s, d))[s]
    {
      assert s / CHUNK < Chunks(n);
    }
  }

  lemma {:induction false} WindowsGrow(n: nat, a: nat, b: nat)
    requires a < Chunks(n) && b <= Chunks(n)
    ensures WindowsBefore(n, a, b) <= Windows(n)
    decreases Chunks(n) - a, Chunks(n) - b
  {
    if b < Chunks(n) {
      WindowsGrow(n, a, b + 1);
    } else {
      assert WindowsBefore(n, a + 1, 0) == WindowsBefore(n, a, b);
      if a + 1 < Chunks(n) {
        WindowsGrow(n, a + 1, 0);
      }
    }
  }

  lemma {:induction false} TroubleStays(service: Service, calls: seq<Window>, all: seq<Window>)
    requires calls <= all && Trouble(service, calls).Some?
    ensures Trouble(service, all) == Trouble(service, calls) && Made(service, all) == Made(service, calls)
  {
    if calls != all {
      TroubleStays(service, calls, all[..|all| - 1]);
    }
  }

  lemma NoTroubleBefore(service: Service, calls: seq<Window>)
    requires Trouble(service, calls).None?
    ensures Made(service, calls) == calls
  {
  }

  // ---- The windows tile the square ----

  lemma {:induction false} WindowsAreInRowOrder(n: nat, a: nat, b: nat, x: nat, y: nat)
    requires b <= Chunks(n) && y < Chunks(n)
    requires x < a || (x == a && y < b)
    ensures |WindowsBefore(n, a, b)| == a * Chunks(n) + b
    ensures 0 <= x * Chunks(n) + y < |WindowsBefore(n, a, b)|
    ensures WindowsBefore(n, a, b)[x * Chunks(n) + y] == WindowAt(n, x, y)
    decreases a, b
  {
    var c := Chunks(n);
    WindowCount(n, a, b);
    if b > 0 {
      WindowCount(n, a, b - 1);
      if !(x == a && y == b - 1) {
        WindowsAreInRowOrder(n, a, b - 1, x, y);
      }
    } else {
      WindowsAreInRowOrder(n, a - 1, c, x, y);
    }
  }

  /** The number of calls. */
  lemma {:induction false} WindowCount(n: nat, a: nat, b: nat)
    requires b <= Chunks(n)
    ensures |WindowsBefore(n, a, b)| == a * Chunks(n) + b
    decreases a, b
  {
    if b > 0 {
      WindowCount(n, a, b - 1);
    } else if a > 0 {
      WindowCount(n, a - 1, Chunks(n));
      assert a * Chunks(n) == (a - 1) * Chunks(n) + Chunks(n);
    }
  }

  /** As many calls as there are squares of 25 by 25, the last ones not full: ceil(n / 25) on each side. */
  lemma CallCount(n: nat)
    ensures |Windows(n)| == Chunks(n) * Chunks(n) && n <= Chunks(n) * CHUNK < n + CHUNK
  {
    WindowCount(n, Chunks(n), 0);
  }

  /** Position (i, j) of the k-th call asks for the pair (s, d). */
  predicate Asks(n: nat, k: nat, i: nat, j: nat, s: nat, d: nat) {
    && k < |Windows(n)|
    && i < |Windows(n)[k].sources| && Windows(n)[k].sources[i] == s
    && j < |Windows(n)[k].destinations| && Windows(n)[k].destinations[j] == d
  }

  lemma {:induction false} SplitIndex(k: nat, c: nat) returns (x: nat, y: nat)
    requires k < c * c
    ensures x < c && y < c && k == x * c + y
  {
    x, y := k / c, k % c;
    assert k == x * c + y;
    BelowSquare(x, y, c);
  }

  lemma BelowSquare(x: nat, y: nat, c: nat)
    requires x * c + y < c * c
    ensures x < c
  {
  }

  lemma ChunkPositions(n: nat, a: nat, i: nat, s: nat)
    requires s < n
    ensures i < |Chunk(n, a)| && Chunk(n, a)[i] == s <==> a == s / CHUNK && i == s % CHUNK
  {
  }

  /** Every pair of points is asked for exactly once: in one call, at one place. */
  lemma EveryPairIsAskedOnce(n: nat, k: nat, i: nat, j: nat, s: nat, d: nat)
    requires s < n && d < n
    ensures Asks(n, k, i, j, s, d)
       <==> k == s / CHUNK * Chunks(n) + d / CHUNK && i == s % CHUNK && j == d % CHUNK
  {
    var c := Chunks(n);
    CallCount(n);
    if k < c * c {
      var x, y := SplitIndex(k, c);
      WindowsAreInRowOrder(n, c, 0, x, y);
      ChunkPositions(n, x, i, s);
      ChunkPositions(n, y, j, d);
      SameSplit(c, x, y, s / CHUNK, d / CHUNK);
    } else {
      SplitFits(c, s / CHUNK, d / CHUNK);
    }
  }

  lemma SameSplit(c: nat, x: nat, y: nat, u: nat, v: nat)
    requires y < c && v < c
    ensures x * c + y == u * c + v <==> x == u && y == v
  {
    if x < u {
      assert (x + 1) * c <= u * c;
    } else if x > u {
      assert (u + 1) * c <= x * c;
    }
  }

  lemma Distribute(x: nat, y: nat, c: nat)
    ensures (x + y) * c == x * c + y * c
  {
  }

  lemma AtLeastOnce(x: nat, c: nat)
    requires x >= 1
    ensures x * c >= c
  {
  }

  lemma SplitFits(c: nat, u: nat, v: nat)
    requires u < c && v < c
    ensures u * c + v < c * c
  {
    Distribute(u, c - u, c);
    AtLeastOnce(c - u, c);
  }

  /**
   No call has more than 25 sources or destinations, none has none, and each is a position in its
   list; all n points are named.
   */
  lemma CallsAreSmall(n: nat, k: nat)
    requires k < |Windows(n)|
    ensures var w := Windows(n)[k];
      && 1 <= |w.sources| <= CHUNK && 1 <= |w.destinations| <= CHUNK
      && WellFormed(w) && w.coordinates == Range(0, n)
  {
    CallCount(n);
    var x, y := SplitIndex(k, Chunks(n));
    WindowsAreInRowOrder(n, Chunks(n), 0, x, y);
  }

  // ---- Chunked equals direct ----

  /** What the service would say of each pair. */
  datatype Roads = Roads(metres: (nat, nat) -> Option<real>, seconds: (nat, nat) -> Option<real>)

  predicate WellFormed(w: Window) {
    && (forall i | 0 <= i < |w.sources| :: w.sources[i] < |w.coordinates|)
    && (forall j | 0 <= j < |w.destinations| :: w.destinations[j] < |w.coordinates|)
  }

  function Ask(w: Window, answer: (nat, nat) -> Option<real>): Answers
    requires WellFormed(w)
  {
    seq(|w.sources|, i requires 0 <= i < |w.sources| =>
      seq(|w.destinations|, j requires 0 <= j < |w.destinations| =>
        answer(w.coordinates[w.sources[i]], w.coordinates[w.destinations[j]])))
  }

  /** The service answers this call, each pair by itself. */
  predicate Answered(service: Service, roads: Roads, w: Window) {
    WellFormed(w) && service(w) == Body(Ask(w, roads.metres), Ask(w, roads.seconds))
  }

  /** A service with a limit: it answers the calls within it and refuses all others. */
  ghost predicate Serves(service: Service, roads: Roads, within: Window -> bool) {
    forall w :: if WellFormed(w) && within(w) then Answered(service, roads, w) else service(w) == Failed
  }

  function Direct(n: nat, roads: Roads): Outcome {
    Table(Tabulate(n, (i: nat, j: nat) => MetresToKm(roads.metres(i, j))),
          Tabulate(n, (i: nat, j: nat) => SecondsToMin(roads.seconds(i, j))), MAPBOX)
  }

  lemma {:induction false} AnsweredIsNoTrouble(service: Service, roads: Roads, calls: seq<Window>)
    requires forall w | w in calls :: Answered(service, roads, w)
    ensures Trouble(service, calls).None?
  {
    if calls != [] {
      AnsweredIsNoTrouble(service, roads, calls[..|calls| - 1]);
      assert Answered(service, roads, calls[|calls| - 1]);
    }
  }

  lemma WindowIsAsked(n: nat, s: nat, d: nat)
    requires s < n && d < n
    ensures WindowAt(n, s / CHUNK, d / CHUNK) in Windows(n)
  {
    WindowsAreInRowOrder(n, Chunks(n), 0, s / CHUNK, d / CHUNK);
  }

  lemma CellIsDirect(n: nat, service: Service, roads: Roads, s: nat, d: nat)
    requires s < n && d < n && Answered(service, roads, WindowAt(n, s / CHUNK, d / CHUNK))
    ensures DistanceCell(n, service, s, d) == MetresToKm(roads.metres(s, d))
    ensures DurationCell(n, service, s, d) == SecondsToMin(roads.seconds(s, d))
  {
    var w := WindowAt(n, s / CHUNK, d / CHUNK);
    ChunkPositions(n, s / CHUNK, s % CHUNK, s);
    ChunkPositions(n, d / CHUNK, d % CHUNK, d);
    assert Entry(Ask(w, roads.metres), s % CHUNK, d % CHUNK) == roads.metres(s, d);
    assert Entry(Ask(w, roads.seconds), s % CHUNK, d % CHUNK) == roads.seconds(s, d);
  }

  /** When all its calls are answered, the stitched matrix is the one asked for pair by pair. */
  lemma StitchedIsDirect(n: nat, service: Service, roads: Roads)
    requires forall w | w in Windows(n) :: Answered(service, roads, w)
    ensures Stitched(n, service) == Direct(n, roads)
  {
    AnsweredIsNoTrouble(service, roads, Windows(n));
    forall s | 0 <= s < n
      ensures Stitched(n, service).distances[s] == Direct(n, roads).distances[s]
      ensures Stitched(n, service).durations[s] == Direct(n, roads).durations[s]
    {
      forall d | 0 <= d < n
        ensures Stitched(n, service).distances[s][d] == Direct(n, roads).distances[s][d]
        ensures Stitched(n, service).durations[s][d] == Direct(n, roads).durations[s][d]
      {
        WindowIsAsked(n, s, d);
        CellIsDirect(n, service, roads, s, d);
      }
    }
  }

  /** A cell is the fill exactly when the service has no route. */
  lemma InfExactlyWithoutRoute(n: nat, service: Service, roads: Roads, s: nat, d: nat)
    requires forall w | w in Windows(n) :: Answered(service, roads, w)
    requires s < n && d < n
    ensures DistanceCell(n, service, s, d).Inf? <==> roads.metres(s, d).None?
    ensures DurationCell(n, service, s, d).Inf? <==> roads.seconds(s, d).None?
  {
    WindowIsAsked(n, s, d);
    CellIsDirect(n, service, roads, s, d);
  }

  /** A converted distance is within five metres of the service's, a time within three seconds. */
  lemma DirectIsClose(n: nat, roads: Roads, s: nat, d: nat)
    requires s < n && d < n
    ensures var t := Direct(n, roads);
      && (roads.metres(s, d).Some? ==>
        var metres := roads.metres(s, d).value;
        t.distances[s][d].Finite? && metres - 5.0 <= 1000.0 * t.distances[s][d].value <= metres + 5.0)
      && (roads.seconds(s, d).Some? ==>
        var seconds := roads.seconds(s, d).value;
        t.durations[s][d].Finite? && seconds - 3.0 <= 60.0 * t.durations[s][d].value <= seconds + 3.0)
  {
    if roads.metres(s, d).Some? {
      RoundingIsClose(roads.metres(s, d).value / 1000.0);
    }
    if roads.seconds(s, d).Some? {
      RoundingIsClose(roads.seconds(s, d).value / 60.0);
    }
  }

  // ---- Up to 25 points: one call ----

  function AllPoints(n: nat): Window {
    Window(Range(0, n), Range(0, n), Range(0, n))
  }

  function Converted(answers: Answers, convert: Option<real> -> Cell): Matrix {
    seq(|answers|, i requires 0 <= i < |answers| =>
      seq(|answers[i]|, j requires 0 <= j < |answers[i]| => convert(answers[i][j])))
  }

  method Convert(answers: Answers, convert: Option<real> -> Cell) returns (m: Matrix)
    ensures m == Converted(answers, convert)
  {
    m := [];
    for i := 0 to |answers|
      invariant m == Converted(answers, convert)[..i]
    {
      var row := [];
      for j := 0 to |answers[i]|
        invariant row == Converted(answers, convert)[i][..j]
      {
        row := row + [convert(answers[i][j])];
      }
      assert row == Converted(answers, convert)[i];
      m := m + [row];
    }
  }

  /** One call's body is taken as it comes, whatever its shape. */
  function Single(n: nat, service: Service): Outcome {
    var body := service(AllPoints(n));
    if body.Failed? then Error
    else Table(Converted(body.distances, MetresToKm), Converted(body.durations, SecondsToMin), MAPBOX)
  }

  function MapboxMatrix(n: nat, service: Service): Outcome {
    if n <= CHUNK then Single(n, service) else Stitched(n, service)
  }

  /** The calls that have to be answered for n points. */
  function CallsFor(n: nat): seq<Window> {
    if n <= CHUNK then [AllPoints(n)] else Windows(n)
  }

  method BuildMapboxMatrix(n: nat, service: Service) returns (outcome: Outcome, calls: seq<Window>)
    ensures outcome == MapboxMatrix(n, service)
    ensures calls == Made(service, CallsFor(n))
  {
    if n <= CHUNK {
      calls := [AllPoints(n)];
      var body := service(AllPoints(n));
      if body.Failed? {
        return Error, calls;
      }
      var distancesKm := Convert(body.distances, MetresToKm);
      var durationsMin := Convert(body.durations, SecondsToMin);
      return Table(distancesKm, durationsMin, MAPBOX), calls;
    }
    outcome, calls := Stitch(n, service);
  }

  // ---- The limit of the service ----

  lemma SingleIsDirect(n: nat, service: Service, roads: Roads)
    requires Answered(service, roads, AllPoints(n))
    ensures Single(n, service) == Direct(n, roads)
  {
    var w := AllPoints(n);
    assert forall i | 0 <= i < n :: Converted(Ask(w, roads.metres), MetresToKm)[i] == Direct(n, roads).distances[i];
    assert forall i | 0 <= i < n :: Converted(Ask(w, roads.seconds), SecondsToMin)[i] == Direct(n, roads).durations[i];
  }

  lemma {:induction false} RefusalIsTrouble(service: Service, calls: seq<Window>, k: nat)
    requires k < |calls| && service(calls[k]).Failed?
    ensures Trouble(service, calls).Some? && !Trouble(service, calls).value.Table?
  {
    if k < |calls| - 1 {
      RefusalIsTrouble(service, calls[..|calls| - 1], k);
    }
    TroubleIsNoTable(service, calls);
  }

  lemma {:induction false} TroubleIsNoTable(service: Service, calls: seq<Window>)
    ensures Trouble(service, calls).Some? ==> !Trouble(service, calls).value.Table?
  {
    if calls != [] {
      TroubleIsNoTable(service, calls[..|calls| - 1]);
    }
  }

  lemma CallsAreWellFormed(n: nat)
    ensures forall w | w in CallsFor(n) :: WellFormed(w) && w.coordinates == Range(0, n)
  {
    forall w | w in Windows(n)
      ensures WellFormed(w) && w.coordinates == Range(0, n)
    {
      var k :| 0 <= k < |Windows(n)| && Windows(n)[k] == w;
      CallsAreSmall(n, k);
    }
  }

  /** For every kind of limit: the result is the direct one if and only if every call is within it. */
  lemma DirectExactlyWithinTheLimit(n: nat, service: Service, roads: Roads, within: Window -> bool)
    requires Serves(service, roads, within)
    ensures MapboxMatrix(n, service) == Direct(n, roads) <==> forall w | w in CallsFor(n) :: within(w)
  {
    CallsAreWellFormed(n);
    if forall w | w in CallsFor(n) :: within(w) {
      assert forall w | w in CallsFor(n) :: Answered(service, roads, w);
      if n <= CHUNK {
        assert AllPoints(n) in CallsFor(n);
        SingleIsDirect(n, service, roads);
      } else {
        StitchedIsDirect(n, service, roads);
      }
    } else {
      var k :| 0 <= k < |CallsFor(n)| && !within(CallsFor(n)[k]);
      assert service(CallsFor(n)[k]) == Failed;
      if n > CHUNK {
        RefusalIsTrouble(service, Windows(n), k);
      }
    }
  }

  predicate NamesAtMost(w: Window, limit: nat) {
    |w.coordinates| <= limit
  }

  predicate AsksAtMost(w: Window, limit: nat) {
    |w.sources| <= limit && |w.destinations| <= limit
  }

  /**
   A limit on the points a call names shows: chunked calls name all of them, so beyond the limit
   the first call is refused and the matrix is an error, for 25 points as for any other limit.
   */
  lemma PointLimitShows(n: nat, service: Service, roads: Roads, limit: nat)
    requires Serves(service, roads, (w: Window) => NamesAtMost(w, limit))
    ensures MapboxMatrix(n, service) == if n <= limit then Direct(n, roads) else Error
    ensures n > limit ==> Made(service, CallsFor(n)) == CallsFor(n)[..1]
  {
    CallsAreWellFormed(n);
    if n <= limit {
      DirectExactlyWithinTheLimit(n, service, roads, (w: Window) => NamesAtMost(w, limit));
    } else {
      var calls := CallsFor(n);
      FirstCall(n);
      assert service(calls[0]) == Failed;
      assert calls[..1][..0] == [];
      assert Trouble(service, calls[..1]) == Some(Error);
      TroubleStays(service, calls[..1], calls);
    }
  }

  lemma FirstCall(n: nat)
    ensures |CallsFor(n)| >= 1 && CallsFor(n)[0] in CallsFor(n)
  {
    if n > CHUNK {
      WindowsAreInRowOrder(n, Chunks(n), 0, 0, 0);
    }
  }

  /**
   A limit of 25 sources and 25 destinations is invisible: for every number of points the matrix is
   the direct one.
   */
  lemma SideLimitIsInvisible(n: nat, service: Service, roads: Roads)
    requires Serves(service, roads, (w: Window) => AsksAtMost(w, CHUNK))
    ensures MapboxMatrix(n, service) == Direct(n, roads)
  {
    forall w | w in CallsFor(n)
      ensures AsksAtMost(w, CHUNK)
    {
      if n > CHUNK {
        var k :| 0 <= k < |Windows(n)| && Windows(n)[k] == w;
        CallsAreSmall(n, k);
      }
    }
    DirectExactlyWithinTheLimit(n, service, roads, (w: Window) => AsksAtMost(w, CHUNK));
  }

  // ---- Without the service ----

  datatype Options = Options(provider: string, detourFactor: real, avgSpeedKmh: real, token: string)

  function Factor(opts: Options): real {
    if opts.detourFactor == 0.0 then 1.3 else opts.detourFactor
  }

  function Speed(opts: Options): real {
    if opts.avgSpeedKmh == 0.0 then 60.0 else opts.avgSpeedKmh
  }

  function Minutes(km: real, speed: real): real
    requires speed != 0.0
  {
    km / speed * 60.0
  }

  /** haversineKm is the great-circle distance of two points; the pair is always taken with the smaller index first. */
  function OfflineKm(haversineKm: (nat, nat) -> real, opts: Options, i: nat, j: nat): real {
    if i == j then 0.0 else haversineKm(Min(i, j), if i <= j then j else i) * Factor(opts)
  }

  function OfflineDistance(haversineKm: (nat, nat) -> real, opts: Options, i: nat, j: nat): Cell {
    Finite(Hundredths(OfflineKm(haversineKm, opts, i, j)))
  }

  function OfflineDuration(haversineKm: (nat, nat) -> real, opts: Options, i: nat, j: nat): Cell {
    Finite(Tenths(Minutes(OfflineKm(haversineKm, opts, i, j), Speed(opts))))
  }

  function Offline(n: nat, haversineKm: (nat, nat) -> real, opts: Options): Outcome {
    Table(Tabulate(n, (i: nat, j: nat) => OfflineDistance(haversineKm, opts, i, j)),
          Tabulate(n, (i: nat, j: nat) => OfflineDuration(haversineKm, opts, i, j)), HAVERSINE)
  }

  /** The cells filled once the outer loop is at a and the inner loop at b. */
  predicate Filled(i: nat, j: nat, a: nat, b: nat) {
    var lo, hi := Min(i, j), if i <= j then j else i;
    i == j || lo < a || (lo == a && hi < b)
  }

  ghost predicate FilledSoFar(distances: array2<Cell>, durations: array2<Cell>, n: nat,
      haversineKm: (nat, nat) -> real, opts: Options, a: nat, b: nat)
    requires distances.Length0 == n && distances.Length1 == n && durations.Length0 == n && durations.Length1 == n
    reads distances, durations
  {
    forall i, j | 0 <= i < n && 0 <= j < n ::
      && distances[i, j] == (if Filled(i, j, a, b) then OfflineDistance(haversineKm, opts, i, j) else Finite(0.0))
      && durations[i, j] == (if Filled(i, j, a, b) then OfflineDuration(haversineKm, opts, i, j) else Finite(0.0))
  }

  method FillPair(distances: array2<Cell>, durations: array2<Cell>, n: nat, ghost haversineKm: (nat, nat) -> real,
      ghost opts: Options, i: nat, j: nat, d: Cell, t: Cell)
    requires distances != durations
    requires distances.Length0 == n && distances.Length1 == n && durations.Length0 == n && durations.Length1 == n
    requires i < j < n && FilledSoFar(distances, durations, n, haversineKm, opts, i, j)
    requires d == OfflineDistance(haversineKm, opts, i, j) && t == OfflineDuration(haversineKm, opts, i, j)
    modifies distances, durations
    ensures FilledSoFar(distances, durations, n, haversineKm, opts, i, j + 1)
  {
    SameBothWays(haversineKm, opts, i, j);
    distances[i, j], distances[j, i] := d, d;
    durations[i, j], durations[j, i] := t, t;
  }

  lemma SameBothWays(haversineKm: (nat, nat) -> real, opts: Options, i: nat, j: nat)
    ensures OfflineDistance(haversineKm, opts, i, j) == OfflineDistance(haversineKm, opts, j, i)
    ensures OfflineDuration(haversineKm, opts, i, j) == OfflineDuration(haversineKm, opts, j, i)
  {
    assert OfflineKm(haversineKm, opts, i, j) == OfflineKm(haversineKm, opts, j, i);
  }

  method BuildHaversineMatrix(n: nat, haversineKm: (nat, nat) -> real, opts: Options) returns (outcome: Outcome)
    ensures outcome == Offline(n, haversineKm, opts)
  {
    var factor, speed := opts.detourFactor, opts.avgSpeedKmh;
    if factor == 0.0 {
      factor := 1.3;
    }
    if speed == 0.0 {
      speed := 60.0;
    }
    var distances := NewMatrix(n, Finite(0.0));
    var durations := NewMatrix(n, Finite(0.0));
    for i := 0 to n
      invariant FilledSoFar(distances, durations, n, haversineKm, opts, i, i + 1)
    {
      for j := i + 1 to n
        invariant FilledSoFar(distances, durations, n, haversineKm, opts, i, j)
      {
        var km := haversineKm(i, j) * factor;
        assert km == OfflineKm(haversineKm, opts, i, j);
        var minutes := Minutes(km, speed);
        var d, t := Hundredths(km), Tenths(minutes);
        FillPair(distances, durations, n, haversineKm, opts, i, j, Finite(d), Finite(t));
      }
    }
    ReadOffOffline(n, haversineKm, opts, distances, durations);
    outcome := Table(Rows(distances), Rows(durations), HAVERSINE);
  }

  lemma ReadOffOffline(n: nat, haversineKm: (nat, nat) -> real, opts: Options, distances: array2<Cell>,
      durations: array2<Cell>)
    requires distances.Length0 == n && distances.Length1 == n && durations.Length0 == n && durations.Length1 == n
    requires FilledSoFar(distances, durations, n, haversineKm, opts, n, n + 1)
    ensures Table(Rows(distances), Rows(durations), HAVERSINE) == Offline(n, haversineKm, opts)
  {
    var expected := Offline(n, haversineKm, opts);
    forall i | 0 <= i < n
      ensures Rows(distances)[i] == expected.distances[i] && Rows(durations)[i] == expected.durations[i]
    {
    }
  }

  /** Without the service the way back is the way there, and staying costs nothing. */
  lemma OfflineIsSymmetric(n: nat, haversineKm: (nat, nat) -> real, opts: Options, i: nat, j: nat)
    requires i < n && j < n
    ensures var t := Offline(n, haversineKm, opts);
      && t.distances[i][j] == t.distances[j][i] && t.durations[i][j] == t.durations[j][i]
      && t.distances[i][i] == Finite(0.0) && t.durations[i][i] == Finite(0.0)
  {
    SameBothWays(haversineKm, opts, i, j);
    assert 0.0 / Speed(opts) == 0.0;
  }

  predicate Near(cell: Cell, x: real, slack: real) {
    cell.Finite? && x - slack <= cell.value <= x + slack
  }

  lemma RoundedIsNear(km: real, minutes: real)
    ensures Near(Finite(Hundredths(km)), km, 0.005) && Near(Finite(Tenths(minutes)), minutes, 0.05)
  {
    RoundingIsClose(km);
    RoundingIsClose(minutes);
  }

  lemma OfflineCells(n: nat, haversineKm: (nat, nat) -> real, opts: Options, i: nat, j: nat, km: real)
    requires i < j < n && km == haversineKm(i, j) * Factor(opts)
    ensures var t := Offline(n, haversineKm, opts);
      && t.distances[i][j] == Finite(Hundredths(km))
      && t.durations[i][j] == Finite(Tenths(km / Speed(opts) * 60.0))
  {
    assert OfflineKm(haversineKm, opts, i, j) == km by {
      assert Min(i, j) == i;
    }
    assert Minutes(km, Speed(opts)) == km / Speed(opts) * 60.0;
  }

  /**
   Without the service a distance is the great circle's with a detour of 1.3 where none is given, to
   five metres, and a time that distance's at 60 km/h where no speed is given, to three seconds.
   */
  lemma OfflineIsClose(n: nat, haversineKm: (nat, nat) -> real, opts: Options, i: nat, j: nat, detour: real,
      speed: real)
    requires i < j < n
    requires detour == (if opts.detourFactor == 0.0 then 1.3 else opts.detourFactor)
    requires speed == (if opts.avgSpeedKmh == 0.0 then 60.0 else opts.avgSpeedKmh)
    ensures var t := Offline(n, haversineKm, opts);
      && Near(t.distances[i][j], haversineKm(i, j) * detour, 0.005)
      && Near(t.durations[i][j], haversineKm(i, j) * detour / speed * 60.0, 0.05)
  {
    var km := haversineKm(i, j) * detour;
    OfflineCells(n, haversineKm, opts, i, j, km);
    RoundedIsNear(km, km / speed * 60.0);
  }

  // ---- Compute ----

  /** One point or none is answered in the name of whatever provider was asked for. */
  function Echoed(provider: string): string {
    if provider == "" then HAVERSINE else provider
  }

  /** points is only counted here: where they lie is in haversineKm and the service. */
  method Compute(points: nat, opts: Options, haversineKm: (nat, nat) -> real, service: Service)
    returns (outcome: Outcome, calls: seq<Window>)
    ensures points >= 2 && (opts.provider == HAVERSINE || (opts.provider != MAPBOX && opts.token == "")) ==>
      outcome == Offline(points, haversineKm, opts) && calls == []
    ensures points >= 2 && opts.provider != HAVERSINE && opts.token != "" ==> outcome == MapboxMatrix(points, service)
    ensures points >= 2 && opts.provider == MAPBOX && opts.token == "" ==> outcome == Error && calls == []
    ensures points == 0 ==> calls == [] && outcome == Table([], [], Echoed(opts.provider))
    ensures points == 1 ==> calls == [] && outcome == Table([[Finite(0.0)]], [[Finite(0.0)]], Echoed(opts.provider))
  {
    var provider := opts.provider;
    if provider == "" {
      provider := HAVERSINE;
    }
    calls := [];
    if points == 0 {
      return Table([], [], provider), calls;
    }
    if points == 1 {
      return Table([[Finite(0.0)]], [[Finite(0.0)]], provider), calls;
    }
    if opts.provider == HAVERSINE {
      outcome := BuildHaversineMatrix(points, haversineKm, opts);
    } else if opts.provider == MAPBOX {
      if opts.token == "" {
        return Error, calls;
      }
      outcome, calls := BuildMapboxMatrix(points, service);
    } else if opts.token != "" {
      outcome, calls := BuildMapboxMatrix(points, service);
    } else {
      outcome := BuildHaversineMatrix(points, haversineKm, opts);
    }
  }
}
