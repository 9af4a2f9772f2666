/**
 * The loading run of `main`: ids 1..total in ascending order, skipping ids already
 * stored, counting outcomes, committing after each processed id that is a multiple of 10,
 * then the evolution pass.
 */
module Run {
  import opened Wrappers
  import opened PokeUrls
  import opened Db
  import opened Records

  /** A `conn.commit()`: after processing an id, after the evolution pass, and in `finally`. */
  datatype Commit = Batch(id: int) | AfterEvolutions | Cleanup

  /** The id whose malformed URL raised out of `process_pokemon`, and the error. */
  datatype Abort = Abort(id: int, error: UrlError)

  /**
   * The state of the loop after some ids: tables, the three counters, the collected
   * edges, the ids handed to `process_pokemon`, those it returned None for, the commits
   * made, and the abort, if one happened.
   */
  datatype RunState = RunState(
    tables: Tables,
    success: nat,
    skipped: nat,
    fail: nat,
    edges: seq<Edge>,
    processed: seq<int>,
    failed: seq<int>,
    commits: seq<Commit>,
    aborted: Option<Abort>)

  function Start(t: Tables): RunState
  {
    RunState(t, 0, 0, 0, [], [], [], [], None)
  }

  /** `if pokemon_id % 10 == 0: conn.commit()` */
  function CommitIfDue(s: RunState, id: int): RunState
  {
    if id % 10 == 0 then s.(commits := s.commits + [Batch(id)]) else s
  }

  /** One iteration of the loop for `id`, given the resume set and what `process_pokemon(id)` would do. */
  function Step(s: RunState, loaded: set<int>, id: int, p: Processed): RunState
  {
    if id in loaded then s.(skipped := s.skipped + 1)
    else
      var s1 := s.(tables := InsertAll(s.tables, p.rows), processed := s.processed + [id]);
      match p.outcome
      case Malformed(e) => s1.(aborted := Some(Abort(id, e)))
      case Absent => CommitIfDue(s1.(fail := s.fail + 1, failed := s.failed + [id]), id)
      case Loaded(es) => CommitIfDue(s1.(success := s.success + 1, edges := s.edges + es), id)
  }

  /**
   * The loop run over ids 1..n, stopping at the first abort. `results(id)` is what
   * `process_pokemon` writes and returns for `id`; its rows do not depend on the tables.
   */
  function RunTo(t0: Tables, loaded: set<int>, results: int -> Processed, n: nat): RunState
    decreases n
  {
    if n == 0 then Start(t0)
    else
      var s := RunTo(t0, loaded, results, n - 1);
      if s.aborted.Some? then s else Step(s, loaded, n, results(n))
  }

  /** Before an abort, the run over 1..n is the run over 1..n-1 followed by one step for `n`. */
  lemma RunToNext(t0: Tables, loaded: set<int>, results: int -> Processed, n: nat)
    requires n >= 1 && RunTo(t0, loaded, results, n - 1).aborted.None?
    ensures RunTo(t0, loaded, results, n) == Step(RunTo(t0, loaded, results, n - 1), loaded, n, results(n))
  {
  }

  /** The per-id results of a run whose network answers are `fetch`. */
  function Results(fetch: int -> Fetched): int -> Processed
  {
    id => Process(id, fetch(id))
  }

  /** The edges the evolution pass adds: distinct endpoints, both stored. */
  function Admitted(t: Tables, edges: set<Edge>): set<Edge>
  {
    set e | e in edges && e.0 != e.1 && e.0 in t.pokemon && e.1 in t.pokemon
  }

  /** The tables after offering each edge of `edges` once to `insert_evolution`, in any order. */
  function AddEvolutions(t: Tables, edges: set<Edge>): (t': Tables)
    ensures t' == t.(evolutions := t'.evolutions)
    ensures forall e :: e in t'.evolutions <==> e in t.evolutions || e in Admitted(t, edges)
  {
    t.(evolutions := t.evolutions + Admitted(t, edges))
  }

  /** `results` gives, for `id`, what `process_pokemon` does with the documents `fetch(id)`. */
  predicate Agrees(results: int -> Processed, fetch: int -> Fetched, id: int)
  {
    results(id) == Process(id, fetch(id))
  }

  /** Runs over results that agree on every id reach the same state. */
  lemma {:induction false} RunToAgree(t0: Tables, loaded: set<int>, r1: int -> Processed, r2: int -> Processed, n: nat)
    requires forall id :: 1 <= id <= n ==> r1(id) == r2(id)
    ensures RunTo(t0, loaded, r1, n) == RunTo(t0, loaded, r2, n)
    decreases n
  {
    if n > 0 {
      RunToAgree(t0, loaded, r1, r2, n - 1);
    }
  }

  /** Any results agreeing with `fetch` run like `Results(fetch)`. */
  lemma RunOfFetch(t0: Tables, loaded: set<int>, fetch: int -> Fetched, results: int -> Processed, n: nat)
    requires forall id :: Agrees(results, fetch, id)
    ensures RunTo(t0, loaded, results, n) == RunTo(t0, loaded, Results(fetch), n)
  {
    forall id | 1 <= id <= n
      ensures results(id) == Results(fetch)(id)
    {
      assert Agrees(results, fetch, id);
    }
    RunToAgree(t0, loaded, results, Results(fetch), n);
  }

  /** Strictly ascending, hence without duplicates. */
  predicate Ascending(s: seq<int>)
  {
    forall i, j :: 0 <= i < j < |s| ==> s[i] < s[j]
  }

  lemma AscendingSnoc(s: seq<int>, v: int)
    requires Ascending(s) && forall x :: x in s ==> x < v
    ensures Ascending(s + [v])
  {
    forall i, j | 0 <= i < j < |s + [v]|
      ensures (s + [v])[i] < (s + [v])[j]
    {
      if j == |s| {
        assert (s + [v])[i] == s[i] && s[i] in s;
      }
    }
  }

  /** What one step does to the tables: nothing for a skipped id, the id's rows otherwise. */
  lemma StepTables(s: RunState, loaded: set<int>, id: int, p: Processed)
    ensures Step(s, loaded, id, p).tables == if id in loaded then s.tables else InsertAll(s.tables, p.rows)
  {
  }

  /** Which ids one step hands over, and when it aborts. */
  lemma StepProcessed(s: RunState, loaded: set<int>, id: int, p: Processed)
    ensures Step(s, loaded, id, p).processed == if id in loaded then s.processed else s.processed + [id]
    ensures Step(s, loaded, id, p).aborted ==
      if id !in loaded && p.outcome.Malformed? then Some(Abort(id, p.outcome.error)) else s.aborted
  {
  }

  /** A skipped id only increments `skipped`. */
  lemma StepSkipped(s: RunState, loaded: set<int>, id: int, p: Processed)
    requires id in loaded
    ensures Step(s, loaded, id, p) == s.(skipped := s.skipped + 1)
  {
  }

  /** One step counts an id as skipped exactly when it is in the resume set. */
  lemma StepSkipCount(s: RunState, loaded: set<int>, id: int, p: Processed)
    ensures Step(s, loaded, id, p).skipped == s.skipped + (if id in loaded then 1 else 0)
  {
  }

  /** A processed id that did not abort: its rows are written, one counter moves, and a commit follows when the id is a multiple of 10. */
  lemma StepCompleted(s: RunState, loaded: set<int>, id: int, p: Processed)
    requires id !in loaded && !p.outcome.Malformed?
    ensures var s' := Step(s, loaded, id, p);
      && s'.aborted == s.aborted
      && s'.tables == InsertAll(s.tables, p.rows)
      && s'.skipped == s.skipped
      && s'.success == s.success + (if p.outcome.Loaded? then 1 else 0)
      && s'.fail == s.fail + (if p.outcome.Absent? then 1 else 0)
      && s'.edges == s.edges + (if p.outcome.Loaded? then p.outcome.evolutions else [])
      && s'.commits == s.commits + (if id % 10 == 0 then [Batch(id)] else [])
  {
    if p.outcome.Absent? {
      assert s.edges + [] == s.edges;
    }
    if id % 10 != 0 {
      assert s.commits + [] == s.commits;
    }
  }

  /** A processed id whose URL was malformed: its rows so far are written and the run aborts, without a commit. */
  lemma StepMalformed(s: RunState, loaded: set<int>, id: int, p: Processed)
    requires id !in loaded && p.outcome.Malformed?
    ensures var s' := Step(s, loaded, id, p);
      && s'.aborted == Some(Abort(id, p.outcome.error))
      && s'.tables == InsertAll(s.tables, p.rows)
      && s'.commits == s.commits
  {
  }

  // ---------------------------------------------------------------------------
  // Properties of the run

  /**
   * Ids are handed to `process_pokemon` in ascending order, each in 1..n and not in
   * the resume set; without an abort, every such id is handed over; an abort
   * happens at the last id handed over.
   */
  lemma {:induction false} RunVisitsInOrder(t0: Tables, loaded: set<int>, results: int -> Processed, n: nat)
    ensures var s := RunTo(t0, loaded, results, n);
      && Ascending(s.processed)
      && (forall i :: i in s.processed ==> 1 <= i <= n && i !in loaded)
      && (s.aborted.None? ==> forall i :: 1 <= i <= n && i !in loaded ==> i in s.processed)
      && (s.aborted.Some? ==> s.processed != [] && s.processed[|s.processed| - 1] == s.aborted.value.id)
    decreases n
  {
    if n > 0 {
      RunVisitsInOrder(t0, loaded, results, n - 1);
      var s := RunTo(t0, loaded, results, n - 1);
      if s.aborted.None? {
        StepProcessed(s, loaded, n, results(n));
        if n !in loaded {
          AscendingSnoc(s.processed, n);
        }
      }
    }
  }

  /**
   * The counters: without an abort, success + skipped + fail == n; with one at id k,
   * they add up to k - 1. Every id handed over is counted once as success or fail,
   * except the one that aborted.
   */
  lemma {:induction false} RunCounts(t0: Tables, loaded: set<int>, results: int -> Processed, n: nat)
    ensures var s := RunTo(t0, loaded, results, n);
      && (s.aborted.None? ==> s.success + s.skipped + s.fail == n)
      && (s.aborted.Some? ==> 1 <= s.aborted.value.id <= n && s.success + s.skipped + s.fail == s.aborted.value.id - 1)
      && s.success + s.fail + (if s.aborted.Some? then 1 else 0) == |s.processed|
    decreases n
  {
    if n > 0 {
      RunCounts(t0, loaded, results, n - 1);
    }
  }

  /** `fail` counts exactly the ids handed over for which `process_pokemon` returned None. */
  lemma {:induction false} RunFailures(t0: Tables, loaded: set<int>, results: int -> Processed, n: nat)
    ensures var s := RunTo(t0, loaded, results, n);
      && s.fail == |s.failed|
      && Ascending(s.failed)
      && (forall i :: i in s.failed <==> i in s.processed && results(i).outcome.Absent?)
    decreases n
  {
    if n > 0 {
      RunFailures(t0, loaded, results, n - 1);
      RunVisitsInOrder(t0, loaded, results, n - 1);
      var s := RunTo(t0, loaded, results, n - 1);
      if s.aborted.None? && n !in loaded {
        var p := results(n);
        assert n !in s.processed;
        var s1 := s.(tables := InsertAll(s.tables, p.rows), processed := s.processed + [n]);
        match p.outcome
        case Malformed(e) =>
          assert RunTo(t0, loaded, results, n) == s1.(aborted := Some(Abort(n, e)));
        case Absent =>
          assert forall i :: i in s.failed ==> i < n;
          AscendingSnoc(s.failed, n);
          assert RunTo(t0, loaded, results, n) == CommitIfDue(s1.(fail := s.fail + 1, failed := s.failed + [n]), n);
        case Loaded(es) =>
          assert RunTo(t0, loaded, results, n) == CommitIfDue(s1.(success := s.success + 1, edges := s.edges + es), n);
      }
    }
  }

  /**
   * Commits fall only after ids that were handed over and are multiples of 10; without
   * an abort, every such id is followed by a commit. Skipped ids never commit.
   */
  lemma {:induction false} RunCommits(t0: Tables, loaded: set<int>, results: int -> Processed, n: nat)
    ensures var s := RunTo(t0, loaded, results, n);
      && (forall c :: c in s.commits ==> c.Batch? && c.id in s.processed && c.id % 10 == 0 && c.id !in loaded)
      && (s.aborted.None? ==> forall i :: i in s.processed && i % 10 == 0 ==> Batch(i) in s.commits)
    decreases n
  {
    if n > 0 {
      RunCommits(t0, loaded, results, n - 1);
      RunVisitsInOrder(t0, loaded, results, n - 1);
    }
  }

  /** A run never leaves a row whose referenced entities are missing. */
  lemma {:induction false} RunKeepsConsistent(t0: Tables, loaded: set<int>, fetch: int -> Fetched, n: nat)
    requires Consistent(t0)
    ensures Consistent(RunTo(t0, loaded, Results(fetch), n).tables)
    decreases n
  {
    if n > 0 {
      RunKeepsConsistent(t0, loaded, fetch, n - 1);
      var s := RunTo(t0, loaded, Results(fetch), n - 1);
      if s.aborted.None? {
        StepTables(s, loaded, n, Results(fetch)(n));
        if n !in loaded {
          ProcessKeepsConsistent(s.tables, n, fetch(n));
        }
      }
    }
  }

  /** Every id of the resume set in 1..n is counted as skipped, unless the run aborted; at most n ids are skipped. */
  lemma {:induction false} RunSkipsLoaded(t0: Tables, loaded: set<int>, results: int -> Processed, n: nat)
    ensures var s := RunTo(t0, loaded, results, n);
      s.skipped == |set i | 1 <= i <= n && i in loaded| ||
      s.aborted.Some?
    ensures RunTo(t0, loaded, results, n).skipped <= n
    decreases n
  {
    if n > 0 {
      RunSkipsLoaded(t0, loaded, results, n - 1);
      var s := RunTo(t0, loaded, results, n - 1);
      if s.aborted.None? {
        StepSkipCount(s, loaded, n, results(n));
      }
      var prev := set i | 1 <= i <= n - 1 && i in loaded;
      var cur := set i | 1 <= i <= n && i in loaded;
      if n in loaded {
        assert cur == prev + {n};
      } else {
        assert cur == prev;
      }
    }
  }

  /** The evolution pass keeps the database consistent: every added edge joins two stored pokemon. */
  lemma AddEvolutionsKeepsConsistent(t: Tables, edges: set<Edge>)
    requires Consistent(t)
    ensures Consistent(AddEvolutions(t, edges))
  {
  }

  // ---------------------------------------------------------------------------
  // Loading twice

  /** The tables `main` leaves behind after the loop `s`: the evolution pass runs unless the loop aborted. */
  function Finish(s: RunState): (t: Tables)
    ensures t.pokemon == s.tables.pokemon
  {
    if s.aborted.Some? then s.tables else AddEvolutions(s.tables, set e | e in s.edges)
  }

  /** The tables one execution of `main` leaves behind, its resume set read from `t0`. */
  function LoadTables(t0: Tables, fetch: int -> Fetched, n: nat): Tables
  {
    Finish(RunTo(t0, t0.pokemon.Keys, Results(fetch), n))
  }

  /** The result of an id for which nothing was found: no row written, None returned. */
  predicate Quiet(p: Processed)
  {
    p == Processed([], Absent)
  }

  /** The first row written for `id` is its pokemon row. */
  predicate LeadsWith(p: Processed, id: int)
  {
    p.rows != [] && p.rows[0].PokemonRow? && p.rows[0].pokemonId == id
  }

  /** Every id in 1..n either writes nothing or writes its own pokemon row first. */
  predicate Shaped(results: int -> Processed, n: nat)
  {
    forall i :: 1 <= i <= n ==> Quiet(results(i)) || LeadsWith(results(i), i)
  }

  /** `process_pokemon` either writes nothing (no pokemon document) or starts with the pokemon row. */
  lemma ResultsShaped(fetch: int -> Fetched, n: nat)
    ensures Shaped(Results(fetch), n)
  {
    forall i | 1 <= i <= n
      ensures Quiet(Results(fetch)(i)) || LeadsWith(Results(fetch)(i), i)
    {
      assert Results(fetch)(i) == Process(i, fetch(i));
      if fetch(i).pokemon.Some? {
        ProcessWritesPokemonFirst(i, fetch(i));
      } else {
        ProcessAbsent(i, fetch(i));
      }
    }
  }

  /** Inserting rows never removes a stored pokemon id. */
  lemma InsertAllKeepsPokemon(t: Tables, rows: seq<Row>)
    ensures forall k :: k in t.pokemon ==> k in InsertAll(t, rows).pokemon
  {
    forall k | k in t.pokemon
      ensures k in InsertAll(t, rows).pokemon
    {
      InsertAllNeverOverwrites(t, rows, PokemonRow(k, t.pokemon[k]));
    }
  }

  /**
   * The `pokemon` table after the loop holds every id stored before and every id handed
   * over whose rows start with its pokemon row, the id that aborted included.
   */
  lemma {:induction false} RunStoresLeading(t0: Tables, loaded: set<int>, results: int -> Processed, n: nat)
    ensures var s := RunTo(t0, loaded, results, n);
      && (forall k :: k in t0.pokemon ==> k in s.tables.pokemon)
      && (forall i :: i in s.processed && LeadsWith(results(i), i) ==> i in s.tables.pokemon)
    decreases n
  {
    if n > 0 {
      RunStoresLeading(t0, loaded, results, n - 1);
      var s := RunTo(t0, loaded, results, n - 1);
      if s.aborted.None? && n !in loaded {
        var p := results(n);
        var s' := Step(s, loaded, n, p);
        StepTables(s, loaded, n, p);
        StepProcessed(s, loaded, n, p);
        InsertAllKeepsPokemon(s.tables, p.rows);
        if LeadsWith(p, n) {
          HasPokemonAfter(s.tables, n, p.rows[0].name, p.rows);
        }
        forall i | i in s'.processed && LeadsWith(results(i), i)
          ensures i in s'.tables.pokemon
        {
          if i != n {
            assert i in s.processed;
          }
        }
      }
    }
  }

  /** After a loop that did not abort, every id in 1..n that is not stored wrote nothing. */
  lemma QuietUnlessStored(t0: Tables, results: int -> Processed, n: nat)
    requires Shaped(results, n) && RunTo(t0, t0.pokemon.Keys, results, n).aborted.None?
    ensures var s := RunTo(t0, t0.pokemon.Keys, results, n);
      forall i :: 1 <= i <= n && i !in s.tables.pokemon ==> Quiet(results(i))
  {
    RunStoresLeading(t0, t0.pokemon.Keys, results, n);
    RunVisitsInOrder(t0, t0.pokemon.Keys, results, n);
  }

  /**
   * A loop over tables in which every id in 1..m that is not stored writes nothing skips
   * the stored ids: the tables stay as they are and no edge is collected.
   */
  lemma {:induction false} RerunLoop(t1: Tables, results: int -> Processed, m: nat)
    requires forall i :: 1 <= i <= m && i !in t1.pokemon ==> Quiet(results(i))
    ensures var s := RunTo(t1, t1.pokemon.Keys, results, m);
      s.aborted.None? && s.tables == t1 && s.edges == [] && s.success == 0
    decreases m
  {
    if m > 0 {
      RerunLoop(t1, results, m - 1);
      var s := RunTo(t1, t1.pokemon.Keys, results, m - 1);
      if m in t1.pokemon.Keys {
        StepSkipped(s, t1.pokemon.Keys, m, results(m));
      } else {
        StepCompleted(s, t1.pokemon.Keys, m, results(m));
        assert InsertAll(t1, []) == t1;
      }
    }
  }

  /**
   * Running the loop again over the tables a loop that did not abort left behind
   * changes nothing: every stored id is skipped, the others write nothing, and no
   * edge is offered, so the evolution pass adds none either.
   */
  lemma RerunChangesNothing(t0: Tables, results: int -> Processed, n: nat)
    requires Shaped(results, n) && RunTo(t0, t0.pokemon.Keys, results, n).aborted.None?
    ensures var t1 := Finish(RunTo(t0, t0.pokemon.Keys, results, n));
      var s := RunTo(t1, t1.pokemon.Keys, results, n);
      && s.aborted.None? && s.success == 0 && s.edges == []
      && Finish(s) == t1
  {
    QuietUnlessStored(t0, results, n);
    var t1 := Finish(RunTo(t0, t0.pokemon.Keys, results, n));
    RerunLoop(t1, results, n);
    var s := RunTo(t1, t1.pokemon.Keys, results, n);
    assert (set e | e in s.edges) == {};
    assert AddEvolutions(t1, {}) == t1;
  }

  /**
   * Loading again after a load that did not abort changes no table: every stored id is
   * skipped, ids whose pokemon was not found write nothing, and no edge is offered.
   */
  lemma LoadIdempotent(t0: Tables, fetch: int -> Fetched, n: nat)
    requires RunTo(t0, t0.pokemon.Keys, Results(fetch), n).aborted.None?
    ensures var t1 := LoadTables(t0, fetch, n);
      var s := RunTo(t1, t1.pokemon.Keys, Results(fetch), n);
      && LoadTables(t1, fetch, n) == t1
      && s.aborted.None? && s.success == 0 && s.edges == []
  {
    ResultsShaped(fetch, n);
    RerunChangesNothing(t0, Results(fetch), n);
  }

  /** The id a run aborted at is one whose result was a malformed URL. */
  lemma {:induction false} AbortIsMalformed(t0: Tables, loaded: set<int>, results: int -> Processed, n: nat)
    ensures var s := RunTo(t0, loaded, results, n);
      s.aborted.Some? ==> results(s.aborted.value.id).outcome == Malformed(s.aborted.value.error)
    decreases n
  {
    if n > 0 {
      AbortIsMalformed(t0, loaded, results, n - 1);
      var s := RunTo(t0, loaded, results, n - 1);
      if s.aborted.None? {
        StepProcessed(s, loaded, n, results(n));
      }
    }
  }

  /**
   * After a load that aborted at id k, the pokemon row of k is stored (the rows after
   * the malformed URL are not), so a second load skips k and never completes it.
   */
  lemma RerunAfterAbort(t0: Tables, fetch: int -> Fetched, n: nat)
    requires RunTo(t0, t0.pokemon.Keys, Results(fetch), n).aborted.Some?
    ensures var k := RunTo(t0, t0.pokemon.Keys, Results(fetch), n).aborted.value.id;
      var t1 := LoadTables(t0, fetch, n);
      && k !in t0.pokemon && k in t1.pokemon
      && Process(k, fetch(k)).outcome.Malformed?
      && k !in RunTo(t1, t1.pokemon.Keys, Results(fetch), n).processed
  {
    var s1 := RunTo(t0, t0.pokemon.Keys, Results(fetch), n);
    var k := s1.aborted.value.id;
    var t1 := LoadTables(t0, fetch, n);
    RunVisitsInOrder(t0, t0.pokemon.Keys, Results(fetch), n);
    RunCounts(t0, t0.pokemon.Keys, Results(fetch), n);
    AbortIsMalformed(t0, t0.pokemon.Keys, Results(fetch), n);
    ResultsShaped(fetch, n);
    assert Results(fetch)(k) == Process(k, fetch(k));
    assert k in s1.processed;
    RunStoresLeading(t0, t0.pokemon.Keys, Results(fetch), n);
    RunVisitsInOrder(t1, t1.pokemon.Keys, Results(fetch), n);
  }

  // ---------------------------------------------------------------------------
  // A run that goes on past a malformed URL

  /**
   * The evidently intended handling of a malformed URL: the id's statements are undone
   * and it is counted as failed, like an id whose pokemon was not found, and the loop
   * goes on with the next id.
   */
  function Guarded(results: int -> Processed): int -> Processed
  {
    id => if results(id).outcome.Malformed? then Processed([], Absent) else results(id)
  }

  /** The tables such an execution of `main` leaves behind. */
  function GuardedLoadTables(t0: Tables, fetch: int -> Fetched, n: nat): Tables
  {
    Finish(RunTo(t0, t0.pokemon.Keys, Guarded(Results(fetch)), n))
  }

  /** With malformed ids counted as failed, the loop never aborts. */
  lemma {:induction false} GuardedNeverAborts(t0: Tables, loaded: set<int>, results: int -> Processed, n: nat)
    ensures RunTo(t0, loaded, Guarded(results), n).aborted.None?
    decreases n
  {
    if n > 0 {
      GuardedNeverAborts(t0, loaded, results, n - 1);
      StepProcessed(RunTo(t0, loaded, Guarded(results), n - 1), loaded, n, Guarded(results)(n));
    }
  }

  /** Guarding keeps the shape of the results: nothing written, or the pokemon row first. */
  lemma GuardedShaped(results: int -> Processed, n: nat)
    requires Shaped(results, n)
    ensures Shaped(Guarded(results), n)
  {
    forall i | 1 <= i <= n
      ensures Quiet(Guarded(results)(i)) || LeadsWith(Guarded(results)(i), i)
    {
      assert Quiet(results(i)) || LeadsWith(results(i), i);
    }
  }

  /** Loading twice with malformed ids counted as failed changes nothing the second time, whatever the data. */
  lemma GuardedLoadIdempotent(t0: Tables, fetch: int -> Fetched, n: nat)
    ensures var t1 := GuardedLoadTables(t0, fetch, n);
      GuardedLoadTables(t1, fetch, n) == t1
  {
    ResultsShaped(fetch, n);
    GuardedShaped(Results(fetch), n);
    GuardedNeverAborts(t0, t0.pokemon.Keys, Results(fetch), n);
    RerunChangesNothing(t0, Guarded(Results(fetch)), n);
  }

  /** A pokemon whose first type is referenced by name, not by id: its URL is malformed. */
  const MalformedDoc := PokemonDoc("bulbasaur", None, None,
    [NamedResource("grass", "https://pokeapi.co/api/v2/type/grass/")], [], [])

  /** A pokemon with no types, stats or moves. */
  const PlainDoc := PokemonDoc("ivysaur", None, None, [], [], [])

  /** Id 1 has the malformed document, id 2 the plain one, and nothing is found for other ids. */
  function AbortingFetch(id: int): Fetched
  {
    if id == 1 then Fetched(Some(MalformedDoc), None, None)
    else if id == 2 then Fetched(Some(PlainDoc), None, None)
    else Fetched(None, None, None)
  }

  /** Id 1 stops at its first type URL, after its pokemon, height and weight rows. */
  lemma MalformedFirstId()
    ensures Process(1, AbortingFetch(1)).rows == HeadRows(1, MalformedDoc)
    ensures Process(1, AbortingFetch(1)).outcome.Malformed?
  {
    var prefix := "https://pokeapi.co/api/v2/type";
    assert MalformedDoc.types[0].url == prefix + "/" + "grass" + Slashes(1);
    ExtractIdRejectsName(prefix, "grass", 1);
    var refs := TypeRefs(MalformedDoc.types);
    assert RefRows(1, Types, refs, ExtractId).rows == [];
  }

  /** Inserting the head rows of id 1 into an empty database stores id 1 alone. */
  lemma HeadRowsStoreOne()
    ensures InsertAll(Empty, HeadRows(1, MalformedDoc)).pokemon.Keys == {1}
  {
    var h := HeadRows(1, MalformedDoc);
    var t := InsertOrIgnore(Empty, h[0]);
    assert t.pokemon == map[1 := "bulbasaur"];
    assert InsertAll(Empty, h) == InsertAll(t, h[1..]);
    assert InsertAll(t, h[1..]) == InsertAll(InsertOrIgnore(t, h[1]), h[2..]);
    assert InsertAll(InsertOrIgnore(t, h[1]), h[2..]) == InsertAll(InsertOrIgnore(InsertOrIgnore(t, h[1]), h[2]), []);
  }

  /** The first load over ids 1..2 aborts at 1 and leaves only id 1 stored. */
  lemma FirstLoadAborts()
    ensures LoadTables(Empty, AbortingFetch, 2).pokemon.Keys == {1}
  {
    MalformedFirstId();
    HeadRowsStoreOne();
    var p1 := Process(1, AbortingFetch(1));
    assert Results(AbortingFetch)(1) == p1;
    assert Empty.pokemon.Keys == {};
    var s1 := RunTo(Empty, {}, Results(AbortingFetch), 1);
    StepMalformed(Start(Empty), {}, 1, p1);
    assert s1.aborted.Some? && s1.tables == InsertAll(Empty, HeadRows(1, MalformedDoc));
    assert RunTo(Empty, {}, Results(AbortingFetch), 2) == s1;
  }

  /**
   * A load that aborts is not idempotent: on an empty database with ids 1..2, the first
   * load stores part of id 1 and aborts; a second load skips 1 and stores id 2.
   */
  lemma AbortedLoadNotIdempotent()
    ensures var t1 := LoadTables(Empty, AbortingFetch, 2);
      2 !in t1.pokemon && 2 in LoadTables(t1, AbortingFetch, 2).pokemon
  {
    FirstLoadAborts();
    var t1 := LoadTables(Empty, AbortingFetch, 2);
    var r1 := RunTo(t1, t1.pokemon.Keys, Results(AbortingFetch), 1);
    StepSkipped(Start(t1), t1.pokemon.Keys, 1, Results(AbortingFetch)(1));
    assert r1.aborted.None? && r1.tables == t1;
    var p2 := Process(2, AbortingFetch(2));
    assert Results(AbortingFetch)(2) == p2;
    assert p2.outcome == Loaded([]);
    ProcessWritesPokemonFirst(2, AbortingFetch(2));
    HasPokemonAfter(t1, 2, "ivysaur", p2.rows);
    var r2 := RunTo(t1, t1.pokemon.Keys, Results(AbortingFetch), 2);
    StepCompleted(r1, t1.pokemon.Keys, 2, p2);
    assert r2.aborted.None? && 2 in r2.tables.pokemon;
    assert (set e | e in r2.edges) == {};
  }
}
