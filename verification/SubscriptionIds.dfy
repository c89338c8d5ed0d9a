/** The counter every connector draws its subscription ids from. */
module SubscriptionIds {
  import opened Prelude

  /** `SubscriptionId` is an unsigned 64-bit number and the counter wraps around. */
  const ID_RANGE: nat := 0x1_0000_0000_0000_0000

  /** `fetch_add(1)` on the 64-bit counter. */
  function NextCounter(counter: nat): nat {
    if counter + 1 >= ID_RANGE then 0 else counter + 1
  }

  /** The id the counter hands out after `k` others. */
  function IdAt(k: nat): nat {
    (1 + k) % ID_RANGE
  }

  /** Ids repeat exactly when more than 2^64 of them are taken. */
  lemma IdsDistinctIff(n: nat)
    ensures (forall i: nat, j: nat | i < j < n :: IdAt(i) != IdAt(j)) <==> n <= 0x1_0000_0000_0000_0000
  {
    if n > ID_RANGE {
      assert IdAt(0) == IdAt(ID_RANGE);
    }
  }

  /** The ids are 1, 2, and so on up to the largest 64-bit number, and then 0. */
  lemma IdsCountUp(k: nat)
    requires k < 0x1_0000_0000_0000_0000
    ensures IdAt(k) == if k == 0xffff_ffff_ffff_ffff then 0 else k + 1
    ensures IdAt(k + 1) == NextCounter(IdAt(k))
  {
  }

  /** `id` is one of the first `n` ids, for `n` up to 2^64. */
  predicate IsTaken(id: nat, n: nat) {
    (1 <= id <= n && id < ID_RANGE) || (id == 0 && n >= ID_RANGE)
  }

  lemma IsTakenIsIdAt(id: nat, n: nat)
    requires n <= ID_RANGE
    ensures IsTaken(id, n) <==> exists k: nat | k < n :: IdAt(k) == id
  {
    if IsTaken(id, n) {
      var k := if id == 0 then ID_RANGE - 1 else id - 1;
      assert k < n && IdAt(k) == id;
    }
  }

  /** The next id is one that was not taken before. */
  lemma NextIsFresh(n: nat)
    requires n < ID_RANGE
    ensures !IsTaken(IdAt(n), n) && NextCounter(IdAt(n)) == IdAt(n + 1)
    ensures forall id: nat | IsTaken(id, n) || id == IdAt(n) :: IsTaken(id, n + 1)
  {
  }

  // ---------------------------------------------------------------- ids between drawing and pushing

  /** A registration draws its id before it pushes its handler, and others may run in between. With `n` ids drawn:
      ids `held` by calls that have not pushed are drawn, unpushed and pairwise distinct, and pushed ids are drawn. */
  ghost predicate IdsFresh(n: nat, counter: nat, held: map<nat, nat>, pushed: set<nat>) {
    && counter == IdAt(n)
    && (forall t | t in held :: IsTaken(held[t], n) && held[t] !in pushed)
    && (forall t, u | t in held && u in held && t != u :: held[t] != held[u])
    && (forall id | id in pushed :: IsTaken(id, n))
  }

  lemma DrawKeepsFresh(n: nat, counter: nat, held: map<nat, nat>, pushed: set<nat>, t: nat)
    requires IdsFresh(n, counter, held, pushed) && n < ID_RANGE && t !in held
    ensures IdsFresh(n + 1, NextCounter(counter), held[t := counter], pushed)
  {
    NextIsFresh(n);
  }

  lemma PushKeepsFresh(n: nat, counter: nat, held: map<nat, nat>, pushed: set<nat>, t: nat)
    requires IdsFresh(n, counter, held, pushed) && t in held
    ensures IdsFresh(n, counter, held - {t}, pushed + {held[t]})
  {
  }

  // ---------------------------------------------------------------- over whole runs

  /** What a step of a connector does with ids. */
  datatype IdEvent =
    | Draws(task: nat)
    | Pushes(task: nat, id: nat)
    | Neither

  /** How many ids `run` has drawn, where `eventOf` says what each step does. */
  function Drawn<S>(run: seq<S>, eventOf: S -> IdEvent): nat {
    if run == [] then 0
    else Drawn(run[..|run|-1], eventOf) + if eventOf(run[|run|-1]).Draws? then 1 else 0
  }

  /** The ids `run` has pushed. */
  function PushedIds<S>(run: seq<S>, eventOf: S -> IdEvent): set<nat> {
    if run == [] then {}
    else
      var last := eventOf(run[|run|-1]);
      PushedIds(run[..|run|-1], eventOf) + if last.Pushes? then {last.id} else {}
  }

  /** The counter and the ids in the hands of calls that have not pushed yet. */
  datatype Holding = Holding(counter: nat, held: map<nat, nat>)

  predicate Allows(h: Holding, event: IdEvent) {
    match event
    case Draws(t) => t !in h.held
    case Pushes(t, id) => t in h.held && h.held[t] == id
    case Neither => true
  }

  function After(h: Holding, event: IdEvent): Holding {
    match event
    case Draws(t) => Holding(NextCounter(h.counter), h.held[t := h.counter])
    case Pushes(t, _) => Holding(h.counter, h.held - {t})
    case Neither => h
  }

  /** Where the ids stand after `run`, when it used them as a connector does: drawn, held, pushed. */
  function Follow<S>(run: seq<S>, eventOf: S -> IdEvent): Option<Holding> {
    if run == [] then Some(Holding(1, map[]))
    else
      match Follow(run[..|run|-1], eventOf)
      case None => None
      case Some(h) =>
        var last := eventOf(run[|run|-1]);
        if Allows(h, last) then Some(After(h, last)) else None
  }

  /** In every run, ids held by calls that have not pushed are unpushed and pairwise distinct. */
  lemma {:induction false} IdsStayFresh<S>(run: seq<S>, eventOf: S -> IdEvent)
    requires Follow(run, eventOf).Some? && Drawn(run, eventOf) <= ID_RANGE
    ensures var h := Follow(run, eventOf).value;
            IdsFresh(Drawn(run, eventOf), h.counter, h.held, PushedIds(run, eventOf))
  {
    if run != [] {
      var before, last := run[..|run|-1], eventOf(run[|run|-1]);
      IdsStayFresh(before, eventOf);
      var h := Follow(before, eventOf).value;
      match last
      case Draws(t) => DrawKeepsFresh(Drawn(before, eventOf), h.counter, h.held, PushedIds(before, eventOf), t);
      case Pushes(t, _) => PushKeepsFresh(Drawn(before, eventOf), h.counter, h.held, PushedIds(before, eventOf), t);
      case Neither =>
    }
  }

  /** No id is pushed twice. */
  lemma PushIsFresh<S>(run: seq<S>, eventOf: S -> IdEvent)
    requires run != [] && Follow(run, eventOf).Some? && Drawn(run, eventOf) <= ID_RANGE
    ensures var last := eventOf(run[|run|-1]); last.Pushes? ==> last.id !in PushedIds(run[..|run|-1], eventOf)
  {
    IdsStayFresh(run[..|run|-1], eventOf);
  }

  lemma {:induction false} PushedAt<S>(run: seq<S>, eventOf: S -> IdEvent, i: nat)
    requires i < |run| && eventOf(run[i]).Pushes?
    ensures eventOf(run[i]).id in PushedIds(run, eventOf)
  {
    if i < |run| - 1 {
      PushedAt(run[..|run|-1], eventOf, i);
    }
  }
}
