/**
 * The loader as it runs against one database connection: the tables it writes, the
 * commits it makes, `process_pokemon`, `insert_evolution`, and the loop of `main`.
 */
module Loader {
  import opened Wrappers
  import opened Text
  import opened PokeUrls
  import opened Db
  import opened EvolutionChain
  import opened Records
  import opened Run

  /** How `main` ends: the three counters, or the abort that a malformed URL raised. */
  datatype RunEnd = Completed(success: nat, skipped: nat, fail: nat) | Aborted(abort: Abort)

  /** No element appears twice. */
  predicate Distinct<T(==)>(s: seq<T>)
  {
    forall i, j :: 0 <= i < j < |s| ==> s[i] != s[j]
  }

  /** `Then` of a completed prefix executes the prefix, then the rest. */
  lemma ThenInsertAll(t: Tables, a: Partial, b: Partial)
    requires a.failure.None?
    ensures InsertAll(t, Then(a, b).rows) == InsertAll(InsertAll(t, a.rows), b.rows)
    ensures Then(a, b).failure == b.failure
  {
    InsertAllAppend(t, a.rows, b.rows);
  }

  lemma InsertAllPair(t: Tables, a: Row, b: Row)
    ensures InsertAll(t, [a, b]) == InsertOrIgnore(InsertOrIgnore(t, a), b)
  {
    var t1 := InsertOrIgnore(t, a);
    var t2 := InsertOrIgnore(t1, b);
    assert [a, b][1..] == [b];
    assert [b][1..] == [];
    assert InsertAll(t2, []) == t2;
    assert InsertAll(t1, [b]) == t2;
  }

  lemma InsertAllHead(t: Tables, a: Row, b: Row, c: Row)
    ensures InsertAll(t, [a, b, c]) == InsertOrIgnore(InsertOrIgnore(InsertOrIgnore(t, a), b), c)
  {
    assert [a, b, c][1..] == [b, c];
    InsertAllPair(InsertOrIgnore(t, a), b, c);
  }

  /** Executing two more statements after a batch. */
  lemma InsertAllSnocPair(t: Tables, done: seq<Row>, a: Row, b: Row)
    ensures InsertAll(t, done + [a, b]) == InsertOrIgnore(InsertOrIgnore(InsertAll(t, done), a), b)
  {
    InsertAllAppend(t, done, [a, b]);
    InsertAllPair(InsertAll(t, done), a, b);
  }

  /** The loop invariant of `InsertRefs` carried past entry `i`, whose URL yields `eid`. */
  lemma RefRowsAdvance(id: int, k: Kind, refs: seq<Ref>, idOf: String -> Result<int, UrlError>, i: nat, done: seq<Row>)
    requires i < |refs| && idOf(refs[i].url).Ok?
    requires RefRows(id, k, refs, idOf) == Then(Partial(done, None), RefRows(id, k, refs[i..], idOf))
    ensures var eid := idOf(refs[i].url).value;
      RefRows(id, k, refs, idOf) ==
        Then(Partial(done + [EntityRow(k, eid, refs[i].name), LinkRow(k, id, eid, refs[i].value)], None),
             RefRows(id, k, refs[i + 1..], idOf))
  {
    assert refs[i..][0] == refs[i] && refs[i..][1..] == refs[i + 1..];
    var eid := idOf(refs[i].url).value;
    var pair := [EntityRow(k, eid, refs[i].name), LinkRow(k, id, eid, refs[i].value)];
    var rest := RefRows(id, k, refs[i + 1..], idOf);
    assert done + (pair + rest.rows) == (done + pair) + rest.rows;
  }

  /** The loop invariant of `InsertRefs` at an entry whose URL yields no id: the loop stops there. */
  lemma RefRowsStop(id: int, k: Kind, refs: seq<Ref>, idOf: String -> Result<int, UrlError>, i: nat, done: seq<Row>)
    requires i < |refs| && idOf(refs[i].url).Err?
    requires RefRows(id, k, refs, idOf) == Then(Partial(done, None), RefRows(id, k, refs[i..], idOf))
    ensures RefRows(id, k, refs, idOf) == Partial(done, Some(idOf(refs[i].url).error))
  {
    assert refs[i..][0] == refs[i];
    assert done + [] == done;
  }

  /** Offering one more edge to `insert_evolution` extends the admitted set by that edge. */
  lemma AddOneEvolution(t: Tables, s: set<Edge>, e: Edge)
    ensures Db.InsertEvolution(AddEvolutions(t, s), e.0, e.1) == AddEvolutions(t, s + {e})
  {
    var t1 := AddEvolutions(t, s);
    var t2 := Db.InsertEvolution(t1, e.0, e.1);
    var t3 := AddEvolutions(t, s + {e});
    assert t2.evolutions == t3.evolutions;
  }

  /** The bookkeeping of the evolution pass carried past one more offered edge `e`. */
  lemma OfferOne(all: seq<Edge>, offered: seq<Edge>, pending: set<Edge>, e: Edge)
    requires e in pending
    requires forall x :: x in all <==> x in offered || x in pending
    requires forall x :: x in offered ==> x !in pending
    requires Distinct(offered)
    ensures forall x :: x in all <==> x in offered + [e] || x in pending - {e}
    ensures forall x :: x in offered + [e] ==> x !in pending - {e}
    ensures Distinct(offered + [e])
    ensures (set x | x in offered + [e]) == (set x | x in offered) + {e}
  {
    assert forall i :: 0 <= i < |offered| ==> (offered + [e])[i] == offered[i];
  }

  /** Once the run has aborted, later ids change nothing. */
  lemma {:induction false} RunStaysAborted(t0: Tables, loaded: set<int>, results: int -> Processed, k: nat, n: nat)
    requires k <= n && RunTo(t0, loaded, results, k).aborted.Some?
    ensures RunTo(t0, loaded, results, n) == RunTo(t0, loaded, results, k)
    decreases n
  {
    if n > k {
      RunStaysAborted(t0, loaded, results, k, n - 1);
      assert RunTo(t0, loaded, results, n - 1).aborted.Some?;
    }
  }

  /** A connection to the database, with the tables as last written and the commits made so far. */
  class PokemonLoader {
    var tables: Tables
    var commits: seq<Commit>

    constructor(initial: Tables)
      ensures tables == initial && commits == []
    {
      tables := initial;
      commits := [];
    }

    /** `get_loaded_pokemon_ids`: the ids of the stored pokemon rows. */
    method LoadedIds() returns (ids: set<int>)
      ensures ids == tables.pokemon.Keys
      ensures forall id :: id in ids <==> HasKey(tables, PokemonRow(id, []))
    {
      ids := tables.pokemon.Keys;
    }

    /** Any `insert_*` statement: `INSERT OR IGNORE` of one row. */
    method Insert(r: Row)
      modifies this
      ensures tables == InsertOrIgnore(old(tables), r) && commits == old(commits)
    {
      tables := InsertOrIgnore(tables, r);
    }

    /** `insert_evolution`: count the stored endpoints, insert the edge only when there are two. */
    method InsertEvolution(a: int, b: int)
      modifies this
      ensures tables == Db.InsertEvolution(old(tables), a, b) && commits == old(commits)
    {
      var count := PokemonCount(tables, a, b);
      if count == 2 {
        Insert(EvolutionRow(a, b));
      }
    }

    /**
     * One of the four entry loops of `process_pokemon`, stopping where an id cannot be
     * read from a URL. `idOf` is `extract_pokemon_id_from_url` at every call site.
     */
    method InsertRefs(id: int, k: Kind, refs: seq<Ref>, idOf: String -> Result<int, UrlError>) returns (failure: Option<UrlError>)
      modifies this
      ensures tables == InsertAll(old(tables), RefRows(id, k, refs, idOf).rows)
      ensures failure == RefRows(id, k, refs, idOf).failure
      ensures commits == old(commits)
    {
      ghost var done: seq<Row> := [];
      var i := 0;
      while i < |refs|
        invariant 0 <= i <= |refs|
        invariant RefRows(id, k, refs, idOf) == Then(Partial(done, None), RefRows(id, k, refs[i..], idOf))
        invariant tables == InsertAll(old(tables), done)
        invariant commits == old(commits)
      {
        var eid := idOf(refs[i].url);
        if eid.Err? {
          RefRowsStop(id, k, refs, idOf, i, done);
          return Some(eid.error);
        }
        var entity := EntityRow(k, eid.value, refs[i].name);
        var link := LinkRow(k, id, eid.value, refs[i].value);
        Insert(entity);
        Insert(link);
        RefRowsAdvance(id, k, refs, idOf, i, done);
        InsertAllSnocPair(old(tables), done, entity, link);
        done := done + [entity, link];
        i := i + 1;
      }
      assert refs[i..] == [];
      assert done + [] == done;
      return None;
    }

    /**
     * `process_pokemon(cursor, id)` with the fetched documents `f`: writes the rows of
     * `Process(id, f)` in order and returns its outcome (None, the edge list, or the
     * error a malformed URL raises after the rows before it were written).
     */
    method ProcessPokemon(id: int, f: Fetched) returns (outcome: Outcome)
      modifies this
      ensures tables == InsertAll(old(tables), Process(id, f).rows)
      ensures outcome == Process(id, f).outcome
      ensures commits == old(commits)
    {
      if f.pokemon.None? {
        return Absent;
      }
      var doc := f.pokemon.value;
      ghost var t0 := tables;
      Insert(PokemonRow(id, doc.name));
      Insert(HeightRow(id, GetOr(doc.height, 0)));
      Insert(WeightRow(id, GetOr(doc.weight, 0)));
      ghost var p := Partial(HeadRows(id, doc), None);
      InsertAllHead(t0, p.rows[0], p.rows[1], p.rows[2]);

      var failure := InsertRefs(id, Types, TypeRefs(doc.types), ExtractId);
      ThenInsertAll(t0, p, RefRows(id, Types, TypeRefs(doc.types), ExtractId));
      p := Then(p, RefRows(id, Types, TypeRefs(doc.types), ExtractId));
      if failure.Some? {
        return Malformed(failure.value);
      }
      failure := InsertRefs(id, Stats, StatRefs(doc.stats), ExtractId);
      ThenInsertAll(t0, p, RefRows(id, Stats, StatRefs(doc.stats), ExtractId));
      p := Then(p, RefRows(id, Stats, StatRefs(doc.stats), ExtractId));
      if failure.Some? {
        return Malformed(failure.value);
      }
      failure := InsertRefs(id, Moves, TypeRefs(doc.moves), ExtractId);
      ThenInsertAll(t0, p, RefRows(id, Moves, TypeRefs(doc.moves), ExtractId));
      p := Then(p, RefRows(id, Moves, TypeRefs(doc.moves), ExtractId));
      if failure.Some? {
        return Malformed(failure.value);
      }

      var evolutions: seq<Edge> := [];
      if f.species.Some? {
        var species := f.species.value;
        failure := InsertRefs(id, Dex, DexRefs(species.pokedexNumbers), ExtractId);
        ThenInsertAll(t0, p, RefRows(id, Dex, DexRefs(species.pokedexNumbers), ExtractId));
        p := Then(p, RefRows(id, Dex, DexRefs(species.pokedexNumbers), ExtractId));
        if failure.Some? {
          return Malformed(failure.value);
        }
        evolutions := CollectSpeciesEvolutions(species, f.chain);
      }
      return Loaded(evolutions);
    }

    /**
     * The evolution-chain part of `process_pokemon`: with a chain URL and a fetched chain,
     * walk it; a walk that raises leaves the list empty.
     */
    method CollectSpeciesEvolutions(species: SpeciesDoc, chain: Option<ChainLink>) returns (evolutions: seq<Edge>)
      ensures evolutions == EvolutionsOf(Some(species), chain)
    {
      evolutions := [];
      if species.evolutionChainUrl != [] && chain.Some? {
        var collected := CollectEvolutionChain(chain.value, None, []);
        EvolutionsOfChain(species, chain.value);
        if collected.Some? {
          evolutions := collected.value;
        }
      }
    }

    /**
     * The evolution pass: `list(set(all_evolutions))` offered to `insert_evolution` one
     * by one, in an order the model leaves open. Each distinct edge is offered exactly once.
     */
    method InsertUniqueEvolutions(all: seq<Edge>) returns (offered: seq<Edge>)
      modifies this
      ensures Distinct(offered)
      ensures forall e :: e in offered <==> e in all
      ensures tables == AddEvolutions(old(tables), set e | e in all)
      ensures commits == old(commits)
    {
      var pending := set e | e in all;
      offered := [];
      while pending != {}
        invariant forall e :: e in all <==> e in offered || e in pending
        invariant forall e :: e in offered ==> e !in pending
        invariant Distinct(offered)
        invariant tables == AddEvolutions(old(tables), set e | e in offered)
        invariant commits == old(commits)
        decreases |pending|
      {
        var e :| e in pending;
        AddOneEvolution(old(tables), (set x | x in offered), e);
        InsertEvolution(e.0, e.1);
        OfferOne(all, offered, pending, e);
        offered := offered + [e];
        pending := pending - {e};
      }
      assert (set e | e in offered) == (set e | e in all);
    }

    /** The call `process_pokemon(cursor, pokemon_id)` from the loop, with the documents `fetch(id)`. */
    method ProcessId(id: int, fetch: int -> Fetched, ghost results: int -> Processed) returns (outcome: Outcome)
      requires forall i :: Agrees(results, fetch, i)
      modifies this
      ensures tables == InsertAll(old(tables), results(id).rows)
      ensures outcome == results(id).outcome
      ensures commits == old(commits)
    {
      assert Agrees(results, fetch, id);
      outcome := ProcessPokemon(id, fetch(id));
    }

    /**
     * The `for pokemon_id in range(1, n + 1)` loop of `main`: skip ids in `loaded`,
     * process the others, count outcomes and commit after each processed id that is a multiple of 10.
     * It stops at the first malformed URL, which raises out of the loop. `results` is
     * what `process_pokemon` does for each id with the documents `fetch` returns.
     */
    method RunIds(n: nat, loaded: set<int>, fetch: int -> Fetched, ghost results: int -> Processed)
      returns (abort: Option<Abort>, success: nat, skipped: nat, fail: nat, allEvolutions: seq<Edge>)
      requires forall id :: Agrees(results, fetch, id)
      modifies this
      ensures var s := RunTo(old(tables), loaded, results, n);
        && abort == s.aborted && tables == s.tables && commits == old(commits) + s.commits
        && success == s.success && skipped == s.skipped && fail == s.fail && allEvolutions == s.edges
    {
      success, skipped, fail := 0, 0, 0;
      allEvolutions := [];
      var id := 1;
      while id <= n
        invariant 1 <= id <= n + 1
        invariant var s := RunTo(old(tables), loaded, results, id - 1);
          && s.aborted.None?
          && tables == s.tables && commits == old(commits) + s.commits
          && success == s.success && skipped == s.skipped && fail == s.fail
          && allEvolutions == s.edges
      {
        ghost var s := RunTo(old(tables), loaded, results, id - 1);
        ghost var p := results(id);
        RunToNext(old(tables), loaded, results, id);
        if id in loaded {
          StepSkipped(s, loaded, id, p);
          skipped := skipped + 1;
          id := id + 1;
          continue;
        }
        var outcome := ProcessId(id, fetch, results);
        match outcome {
          case Malformed(e) =>
            StepMalformed(s, loaded, id, p);
            RunStaysAborted(old(tables), loaded, results, id, n);
            return Some(Abort(id, e)), success, skipped, fail, allEvolutions;
          case Absent =>
            StepCompleted(s, loaded, id, p);
            fail := fail + 1;
          case Loaded(evolutions) =>
            StepCompleted(s, loaded, id, p);
            success := success + 1;
            allEvolutions := allEvolutions + evolutions;
        }
        if id % 10 == 0 {
          commits := commits + [Batch(id)];
        }
        id := id + 1;
      }
      return None, success, skipped, fail, allEvolutions;
    }

    /**
     * `main` after connecting: read the resume set, run ids 1..total (none when total
     * is below 1), then offer the deduplicated edges and commit; the cleanup commit of
     * `finally` happens on both paths. `fetch(id)` is what the network returns for `id`.
     */
    method Load(total: int, fetch: int -> Fetched) returns (end: RunEnd)
      modifies this
      ensures var n := if total < 0 then 0 else total;
        var s := RunTo(old(tables), old(tables).pokemon.Keys, Results(fetch), n);
        match s.aborted
        case Some(a) =>
          end == Aborted(a) && tables == s.tables && commits == old(commits) + s.commits + [Cleanup]
        case None =>
          && end == Completed(s.success, s.skipped, s.fail)
          && tables == AddEvolutions(s.tables, set e | e in s.edges)
          && commits == old(commits) + s.commits + [AfterEvolutions, Cleanup]
      ensures tables == LoadTables(old(tables), fetch, if total < 0 then 0 else total)
    {
      var loaded := LoadedIds();
      var n := if total < 0 then 0 else total;
      assert forall id :: Agrees(Results(fetch), fetch, id);
      ghost var results: int -> Processed :| forall id :: Agrees(results, fetch, id);
      RunOfFetch(old(tables), loaded, fetch, results, n);
      var abort, success, skipped, fail, allEvolutions := RunIds(n, loaded, fetch, results);
      if abort.Some? {
        commits := commits + [Cleanup];
        return Aborted(abort.value);
      }
      var offered := InsertUniqueEvolutions(allEvolutions);
      commits := commits + [AfterEvolutions];
      commits := commits + [Cleanup];
      return Completed(success, skipped, fail);
    }
  }
}
