/**
 * `process_pokemon`: the rows one fetched pokemon turns into, and what it returns.
 * The fetched documents are inputs (None when the fetch returned nothing); the rows
 * are listed in the order the source executes its `INSERT OR IGNORE` statements.
 */
module Records {
  import opened Wrappers
  import opened Text
  import opened PokeUrls
  import opened Db
  import opened EvolutionChain

  /** `{name, url}`: a reference to another resource. */
  datatype NamedResource = NamedResource(name: String, url: String)

  /** An entry of `stats`: the stat reference and `base_stat`, which may be missing. */
  datatype StatSlot = StatSlot(stat: NamedResource, baseStat: Option<int>)

  /** An entry of `pokedex_numbers`; `entry_number` is read but never stored. */
  datatype DexNumber = DexNumber(pokedex: NamedResource, entryNumber: Option<int>)

  /** The pokemon document; a missing `types`, `stats` or `moves` list is `[]`. */
  datatype PokemonDoc = PokemonDoc(
    name: String,
    height: Option<int>,
    weight: Option<int>,
    types: seq<NamedResource>,
    stats: seq<StatSlot>,
    moves: seq<NamedResource>)

  /** The species document; `evolutionChainUrl` is `""` when the URL is missing or empty. */
  datatype SpeciesDoc = SpeciesDoc(pokedexNumbers: seq<DexNumber>, evolutionChainUrl: String)

  /**
   * What the network returned while one id was processed: the pokemon document, the
   * species document, and the `chain` of the evolution-chain document (None when the
   * request failed or the chain was missing or empty).
   */
  datatype Fetched = Fetched(pokemon: Option<PokemonDoc>, species: Option<SpeciesDoc>, chain: Option<ChainLink>)

  /** How `process_pokemon` ends: it returns None, returns the edge list, or raises on a malformed URL. */
  datatype Outcome = Absent | Loaded(evolutions: seq<Edge>) | Malformed(error: UrlError)

  /** The four per-list loops share one shape: read an id from a URL, insert the entity, then the link. */
  datatype Kind = Types | Stats | Moves | Dex

  /** One list entry as the loop reads it: name, URL, and the value stored with the link (`base_stat` for stats). */
  datatype Ref = Ref(name: String, url: String, value: int)

  function EntityRow(k: Kind, eid: int, name: String): Row
  {
    match k
    case Types => TypeRow(eid, name)
    case Stats => StatRow(eid, name)
    case Moves => MoveRow(eid, name)
    case Dex => DexRow(eid, name)
  }

  function LinkRow(k: Kind, pid: int, eid: int, value: int): Row
  {
    match k
    case Types => PokemonTypeRow(pid, eid)
    case Stats => PokemonStatRow(pid, eid, value)
    case Moves => PokemonMoveRow(pid, eid)
    case Dex => PokemonNumberRow(pid, eid)
  }

  /** Rows executed so far, and the error that stopped the statements, if any. */
  datatype Partial = Partial(rows: seq<Row>, failure: Option<UrlError>)

  /** The rows one loop executes: an entity row and a link row per entry, up to the first malformed URL. */
  function RefRows(id: int, k: Kind, refs: seq<Ref>, idOf: String -> Result<int, UrlError>): Partial
    decreases |refs|
  {
    if refs == [] then Partial([], None)
    else
      match idOf(refs[0].url)
      case Err(e) => Partial([], Some(e))
      case Ok(eid) =>
        var rest := RefRows(id, k, refs[1..], idOf);
        Partial([EntityRow(k, eid, refs[0].name), LinkRow(k, id, eid, refs[0].value)] + rest.rows, rest.failure)
  }

  function TypeRefs(ts: seq<NamedResource>): (r: seq<Ref>)
    ensures |r| == |ts| && forall i :: 0 <= i < |ts| ==> r[i] == Ref(ts[i].name, ts[i].url, 0)
  {
    seq(|ts|, i requires 0 <= i < |ts| => Ref(ts[i].name, ts[i].url, 0))
  }

  /** Stat entries, with `base_stat` defaulting to 0. */
  function StatRefs(ss: seq<StatSlot>): (r: seq<Ref>)
    ensures |r| == |ss| && forall i :: 0 <= i < |ss| ==> r[i] == Ref(ss[i].stat.name, ss[i].stat.url, GetOr(ss[i].baseStat, 0))
  {
    seq(|ss|, i requires 0 <= i < |ss| => Ref(ss[i].stat.name, ss[i].stat.url, GetOr(ss[i].baseStat, 0)))
  }

  function DexRefs(ds: seq<DexNumber>): (r: seq<Ref>)
    ensures |r| == |ds| && forall i :: 0 <= i < |ds| ==> r[i] == Ref(ds[i].pokedex.name, ds[i].pokedex.url, 0)
  {
    seq(|ds|, i requires 0 <= i < |ds| => Ref(ds[i].pokedex.name, ds[i].pokedex.url, 0))
  }

  /** The first three statements for a fetched pokemon: the pokemon row, then height and weight (default 0). */
  function HeadRows(id: int, doc: PokemonDoc): seq<Row>
  {
    [PokemonRow(id, doc.name), HeightRow(id, GetOr(doc.height, 0)), WeightRow(id, GetOr(doc.weight, 0))]
  }

  /** The edges returned for a pokemon whose own rows were all written. */
  function EvolutionsOf(species: Option<SpeciesDoc>, chain: Option<ChainLink>): seq<Edge>
  {
    if species.None? || species.value.evolutionChainUrl == [] || chain.None? then []
    else
      match Resolve(chain.value, SpeciesId)
      case Some(t) => Edges(t, None)
      case None => []
  }

  /** With a chain URL and a chain, the edges are those of the resolved tree, or none when an id is malformed. */
  lemma EvolutionsOfChain(species: SpeciesDoc, chain: ChainLink)
    requires species.evolutionChainUrl != []
    ensures Resolve(chain, SpeciesId).None? ==> EvolutionsOf(Some(species), Some(chain)) == []
    ensures Resolve(chain, SpeciesId).Some? ==>
      EvolutionsOf(Some(species), Some(chain)) == Edges(Resolve(chain, SpeciesId).value, None)
  {
  }

  /** `a` followed by `b`, unless `a` stopped on an error. */
  function Then(a: Partial, b: Partial): Partial
  {
    if a.failure.Some? then a else Partial(a.rows + b.rows, b.failure)
  }

  /**
   * Every statement `process_pokemon` executes for `id`, in order, and the error that
   * stopped it, if any; `idOf` reads an id from a URL (`extract_pokemon_id_from_url`).
   */
  function Statements(id: int, doc: PokemonDoc, species: Option<SpeciesDoc>, idOf: String -> Result<int, UrlError>): Partial
  {
    var own := Then(Then(Then(Partial(HeadRows(id, doc), None),
                              RefRows(id, Types, TypeRefs(doc.types), idOf)),
                         RefRows(id, Stats, StatRefs(doc.stats), idOf)),
                    RefRows(id, Moves, TypeRefs(doc.moves), idOf));
    if species.Some? then Then(own, RefRows(id, Dex, DexRefs(species.value.pokedexNumbers), idOf)) else own
  }

  /** The rows one call writes and how it ends. */
  datatype Processed = Processed(rows: seq<Row>, outcome: Outcome)

  /** The result of `process_pokemon(cursor, id)` with the fetched documents `f`: rows written and outcome. */
  function Process(id: int, f: Fetched): Processed
  {
    match f.pokemon
    case None => Processed([], Absent)
    case Some(doc) =>
      var p := Statements(id, doc, f.species, ExtractId);
      if p.failure.Some? then Processed(p.rows, Malformed(p.failure.value))
      else Processed(p.rows, Loaded(EvolutionsOf(f.species, f.chain)))
  }

  // ---------------------------------------------------------------------------
  // Properties of one loop

  /** A loop completes exactly when every URL yields an id, and then writes two rows per entry. */
  lemma {:induction false} RefRowsFailure(id: int, k: Kind, refs: seq<Ref>, idOf: String -> Result<int, UrlError>)
    ensures RefRows(id, k, refs, idOf).failure.None? <==> forall i :: 0 <= i < |refs| ==> idOf(refs[i].url).Ok?
    ensures RefRows(id, k, refs, idOf).failure.None? ==> |RefRows(id, k, refs, idOf).rows| == 2 * |refs|
    decreases |refs|
  {
    if refs != [] {
      RefRowsFailure(id, k, refs[1..], idOf);
      assert forall i :: 1 <= i < |refs| ==> refs[i] == refs[1..][i - 1];
    }
  }

  /** Entry `j` writes its entity row, then the link row naming `id` and that entity. */
  lemma {:induction false} RefRowsShape(id: int, k: Kind, refs: seq<Ref>, idOf: String -> Result<int, UrlError>, j: nat)
    requires j < |refs| && RefRows(id, k, refs, idOf).failure.None?
    ensures var rows := RefRows(id, k, refs, idOf).rows;
      idOf(refs[j].url).Ok? && 2 * j + 1 < |rows| &&
      rows[2 * j] == EntityRow(k, idOf(refs[j].url).value, refs[j].name) &&
      rows[2 * j + 1] == LinkRow(k, id, idOf(refs[j].url).value, refs[j].value)
    decreases |refs|
  {
    var rest := RefRows(id, k, refs[1..], idOf);
    if j > 0 {
      RefRowsShape(id, k, refs[1..], idOf, j - 1);
    }
  }

  /** Writing a loop's rows after the pokemon row never violates referential integrity. */
  lemma {:induction false} RefRowsOrdered(t: Tables, id: int, k: Kind, refs: seq<Ref>, idOf: String -> Result<int, UrlError>)
    requires id in t.pokemon
    ensures Ordered(t, RefRows(id, k, refs, idOf).rows)
    decreases |refs|
  {
    if refs != [] && idOf(refs[0].url).Ok? {
      var eid := idOf(refs[0].url).value;
      var pair := [EntityRow(k, eid, refs[0].name), LinkRow(k, id, eid, refs[0].value)];
      var t1 := InsertOrIgnore(t, pair[0]);
      assert RefsPresent(t1, pair[1]) by {
        assert HasKey(t1, pair[0]);
        assert HasKey(t, PokemonRow(id, []));
      }
      assert Ordered(InsertOrIgnore(t1, pair[1]), []);
      assert pair[1..] == [pair[1]];
      assert Ordered(t, pair);
      var t2 := InsertAll(t, pair);
      InsertAllKeepsKeys(t, pair, PokemonRow(id, []));
      RefRowsOrdered(t2, id, k, refs[1..], idOf);
      OrderedAppend(t, pair, RefRows(id, k, refs[1..], idOf).rows);
    }
  }

  lemma {:induction false} RefRowsNoPokemonOrEdge(id: int, k: Kind, refs: seq<Ref>, idOf: String -> Result<int, UrlError>)
    ensures NoHeadOrEdge(RefRows(id, k, refs, idOf).rows)
    decreases |refs|
  {
    if refs != [] {
      RefRowsNoPokemonOrEdge(id, k, refs[1..], idOf);
    }
  }

  // ---------------------------------------------------------------------------
  // Properties of process_pokemon

  /** An absent pokemon document: nothing is written and the result is None. */
  lemma ProcessAbsent(id: int, f: Fetched)
    requires f.pokemon.None?
    ensures Process(id, f) == Processed([], Absent)
  {
  }

  /** The statements for a fetched pokemon start with its three head rows; no other pokemon row or edge follows. */
  lemma StatementsShape(id: int, doc: PokemonDoc, species: Option<SpeciesDoc>, idOf: String -> Result<int, UrlError>)
    ensures var rows := Statements(id, doc, species, idOf).rows;
      |rows| >= 3 && rows[..3] == HeadRows(id, doc) && NoHeadOrEdge(rows[1..])
  {
    var head := Partial(HeadRows(id, doc), None);
    var q1 := RefRows(id, Types, TypeRefs(doc.types), idOf);
    var q2 := RefRows(id, Stats, StatRefs(doc.stats), idOf);
    var q3 := RefRows(id, Moves, TypeRefs(doc.moves), idOf);
    RefRowsNoPokemonOrEdge(id, Types, TypeRefs(doc.types), idOf);
    RefRowsNoPokemonOrEdge(id, Stats, StatRefs(doc.stats), idOf);
    RefRowsNoPokemonOrEdge(id, Moves, TypeRefs(doc.moves), idOf);
    assert head.rows[..3] == head.rows;
    var p1 := Then(head, q1);
    ThenTail(head, q1);
    var p2 := Then(p1, q2);
    ThenTail(p1, q2);
    var p3 := Then(p2, q3);
    ThenTail(p2, q3);
    if species.Some? {
      var q4 := RefRows(id, Dex, DexRefs(species.value.pokedexNumbers), idOf);
      RefRowsNoPokemonOrEdge(id, Dex, DexRefs(species.value.pokedexNumbers), idOf);
      ThenTail(p3, q4);
    }
  }

  /**
   * A fetched pokemon: the pokemon row is written first, then height and weight
   * (0 when missing), and no other pokemon row and no evolution edge follow.
   */
  lemma ProcessWritesPokemonFirst(id: int, f: Fetched)
    requires f.pokemon.Some?
    ensures var rows := Process(id, f).rows;
      var doc := f.pokemon.value;
      |rows| >= 3 &&
      rows[0] == PokemonRow(id, doc.name) &&
      rows[1] == HeightRow(id, GetOr(doc.height, 0)) &&
      rows[2] == WeightRow(id, GetOr(doc.weight, 0)) &&
      forall j :: 1 <= j < |rows| ==> !rows[j].PokemonRow? && !rows[j].EvolutionRow?
  {
    var doc := f.pokemon.value;
    StatementsShape(id, doc, f.species, ExtractId);
    LeadingRows(Process(id, f).rows, id, doc);
  }

  lemma LeadingRows(rows: seq<Row>, id: int, doc: PokemonDoc)
    requires |rows| >= 3 && rows[..3] == HeadRows(id, doc) && NoHeadOrEdge(rows[1..])
    ensures rows[0] == PokemonRow(id, doc.name)
    ensures rows[1] == HeightRow(id, GetOr(doc.height, 0)) && rows[2] == WeightRow(id, GetOr(doc.weight, 0))
    ensures forall j :: 1 <= j < |rows| ==> !rows[j].PokemonRow? && !rows[j].EvolutionRow?
  {
    assert rows[..3][0] == rows[0] && rows[..3][1] == rows[1] && rows[..3][2] == rows[2];
    forall j | 1 <= j < |rows|
      ensures !rows[j].PokemonRow? && !rows[j].EvolutionRow?
    {
      assert rows[j] == rows[1..][j - 1];
    }
  }

  /** Rows with no pokemon row and no evolution edge among them. */
  predicate NoHeadOrEdge(rows: seq<Row>)
  {
    forall r :: r in rows ==> !r.PokemonRow? && !r.EvolutionRow?
  }

  /** `Then` extends `a` by nothing or by all of `b`. */
  lemma ThenTail(a: Partial, b: Partial)
    requires |a.rows| >= 3 && NoHeadOrEdge(a.rows[1..]) && NoHeadOrEdge(b.rows)
    ensures Then(a, b).rows[..3] == a.rows[..3] && |Then(a, b).rows| >= 3 && NoHeadOrEdge(Then(a, b).rows[1..])
  {
    if a.failure.None? {
      assert (a.rows + b.rows)[1..] == a.rows[1..] + b.rows;
    }
  }

  /** Each stat entry stores `base_stat`, or 0 when it is missing, against the stat's id. */
  lemma ProcessStatDefault(id: int, doc: PokemonDoc, j: nat)
    requires j < |doc.stats| && RefRows(id, Stats, StatRefs(doc.stats), ExtractId).failure.None?
    ensures var sid := ExtractId(doc.stats[j].stat.url);
      sid.Ok? &&
      PokemonStatRow(id, sid.value, GetOr(doc.stats[j].baseStat, 0)) in RefRows(id, Stats, StatRefs(doc.stats), ExtractId).rows
  {
    RefRowsShape(id, Stats, StatRefs(doc.stats), ExtractId, j);
  }

  /** The returned edge list is empty when the species document, its chain URL or the chain is missing. */
  lemma ProcessNoSpeciesNoEdges(id: int, f: Fetched)
    requires f.pokemon.Some?
    requires f.species.None? || f.species.value.evolutionChainUrl == [] || f.chain.None?
    ensures Process(id, f).outcome == Loaded([]) || Process(id, f).outcome.Malformed?
  {
  }

  /** The statements stop early exactly when one of the loops does. */
  lemma StatementsFailure(id: int, doc: PokemonDoc, species: Option<SpeciesDoc>, idOf: String -> Result<int, UrlError>)
    ensures Statements(id, doc, species, idOf).failure.None? <==>
      && RefRows(id, Types, TypeRefs(doc.types), idOf).failure.None?
      && RefRows(id, Stats, StatRefs(doc.stats), idOf).failure.None?
      && RefRows(id, Moves, TypeRefs(doc.moves), idOf).failure.None?
      && (species.Some? ==> RefRows(id, Dex, DexRefs(species.value.pokedexNumbers), idOf).failure.None?)
  {
  }

  /** A loop over a type or move list stops early exactly when one of its URLs yields no id. */
  lemma NamedUrlsFailure(id: int, k: Kind, rs: seq<NamedResource>, idOf: String -> Result<int, UrlError>)
    ensures RefRows(id, k, TypeRefs(rs), idOf).failure.Some? <==>
      exists i :: 0 <= i < |rs| && idOf(rs[i].url).Err?
  {
    var refs := TypeRefs(rs);
    RefRowsFailure(id, k, refs, idOf);
    assert forall i :: 0 <= i < |rs| ==> refs[i].url == rs[i].url;
  }

  /** The stat loop stops early exactly when one of the stat URLs yields no id. */
  lemma StatUrlsFailure(id: int, ss: seq<StatSlot>, idOf: String -> Result<int, UrlError>)
    ensures RefRows(id, Stats, StatRefs(ss), idOf).failure.Some? <==>
      exists i :: 0 <= i < |ss| && idOf(ss[i].stat.url).Err?
  {
    var refs := StatRefs(ss);
    RefRowsFailure(id, Stats, refs, idOf);
    assert forall i :: 0 <= i < |ss| ==> refs[i].url == ss[i].stat.url;
  }

  /** The pokedex loop stops early exactly when one of the pokedex URLs yields no id. */
  lemma DexUrlsFailure(id: int, ds: seq<DexNumber>, idOf: String -> Result<int, UrlError>)
    ensures RefRows(id, Dex, DexRefs(ds), idOf).failure.Some? <==>
      exists i :: 0 <= i < |ds| && idOf(ds[i].pokedex.url).Err?
  {
    var refs := DexRefs(ds);
    RefRowsFailure(id, Dex, refs, idOf);
    assert forall i :: 0 <= i < |ds| ==> refs[i].url == ds[i].pokedex.url;
  }

  /** The statements stop early exactly when a type, stat, move or (with species data) dex URL yields no id. */
  lemma StatementsMalformed(id: int, doc: PokemonDoc, species: Option<SpeciesDoc>, idOf: String -> Result<int, UrlError>)
    ensures Statements(id, doc, species, idOf).failure.Some? <==>
        (exists i :: 0 <= i < |doc.types| && idOf(doc.types[i].url).Err?) ||
        (exists i :: 0 <= i < |doc.stats| && idOf(doc.stats[i].stat.url).Err?) ||
        (exists i :: 0 <= i < |doc.moves| && idOf(doc.moves[i].url).Err?) ||
        (species.Some? && exists i :: 0 <= i < |species.value.pokedexNumbers| &&
                                      idOf(species.value.pokedexNumbers[i].pokedex.url).Err?)
  {
    StatementsFailure(id, doc, species, idOf);
    NamedUrlsFailure(id, Types, doc.types, idOf);
    StatUrlsFailure(id, doc.stats, idOf);
    NamedUrlsFailure(id, Moves, doc.moves, idOf);
    if species.Some? {
      DexUrlsFailure(id, species.value.pokedexNumbers, idOf);
    }
  }

  /** The call raises exactly when a type, stat, move or (with species data) dex URL is malformed. */
  lemma ProcessMalformed(id: int, f: Fetched)
    requires f.pokemon.Some?
    ensures var doc := f.pokemon.value;
      Process(id, f).outcome.Malformed? <==>
        (exists i :: 0 <= i < |doc.types| && ExtractId(doc.types[i].url).Err?) ||
        (exists i :: 0 <= i < |doc.stats| && ExtractId(doc.stats[i].stat.url).Err?) ||
        (exists i :: 0 <= i < |doc.moves| && ExtractId(doc.moves[i].url).Err?) ||
        (f.species.Some? && exists i :: 0 <= i < |f.species.value.pokedexNumbers| &&
                                        ExtractId(f.species.value.pokedexNumbers[i].pokedex.url).Err?)
  {
    StatementsMalformed(id, f.pokemon.value, f.species, ExtractId);
  }

  lemma ThenOrdered(t: Tables, a: Partial, b: Partial)
    requires Ordered(t, a.rows) && (a.failure.None? ==> Ordered(InsertAll(t, a.rows), b.rows))
    ensures Ordered(t, Then(a, b).rows)
  {
    if a.failure.None? {
      OrderedAppend(t, a.rows, b.rows);
    }
  }

  /** Once the pokemon row leads a batch, the pokemon is stored after the whole batch. */
  lemma HasPokemonAfter(t: Tables, id: int, name: String, rows: seq<Row>)
    requires rows != [] && rows[0] == PokemonRow(id, name)
    ensures id in InsertAll(t, rows).pokemon
  {
    var t1 := InsertOrIgnore(t, rows[0]);
    assert HasKey(t1, rows[0]);
    InsertAllKeepsKeys(t1, rows[1..], rows[0]);
  }

  lemma HeadOrdered(t: Tables, id: int, doc: PokemonDoc)
    ensures Ordered(t, HeadRows(id, doc))
  {
    var rows := HeadRows(id, doc);
    var t1 := InsertOrIgnore(t, rows[0]);
    var t2 := InsertOrIgnore(t1, rows[1]);
    var t3 := InsertOrIgnore(t2, rows[2]);
    assert id in t1.pokemon && id in t2.pokemon;
    assert rows[1..][1..][1..] == [];
    assert Ordered(t3, []);
    assert Ordered(t2, rows[1..][1..]);
    assert Ordered(t1, rows[1..]);
  }

  /** Appending one loop to statements that start with the pokemon row keeps them ordered and led by that row. */
  lemma ThenRefsOrdered(t: Tables, id: int, name: String, p: Partial, k: Kind, refs: seq<Ref>, idOf: String -> Result<int, UrlError>)
    requires p.rows != [] && p.rows[0] == PokemonRow(id, name) && Ordered(t, p.rows)
    ensures var q := Then(p, RefRows(id, k, refs, idOf));
      q.rows != [] && q.rows[0] == PokemonRow(id, name) && Ordered(t, q.rows)
  {
    HasPokemonAfter(t, id, name, p.rows);
    RefRowsOrdered(InsertAll(t, p.rows), id, k, refs, idOf);
    ThenOrdered(t, p, RefRows(id, k, refs, idOf));
  }

  /** The statements of one pokemon, cut short or not, are in a referentially safe order. */
  lemma StatementsOrdered(t: Tables, id: int, doc: PokemonDoc, species: Option<SpeciesDoc>, idOf: String -> Result<int, UrlError>)
    ensures Ordered(t, Statements(id, doc, species, idOf).rows)
  {
    var head := Partial(HeadRows(id, doc), None);
    HeadOrdered(t, id, doc);
    ThenRefsOrdered(t, id, doc.name, head, Types, TypeRefs(doc.types), idOf);
    var p1 := Then(head, RefRows(id, Types, TypeRefs(doc.types), idOf));
    ThenRefsOrdered(t, id, doc.name, p1, Stats, StatRefs(doc.stats), idOf);
    var p2 := Then(p1, RefRows(id, Stats, StatRefs(doc.stats), idOf));
    ThenRefsOrdered(t, id, doc.name, p2, Moves, TypeRefs(doc.moves), idOf);
    var p3 := Then(p2, RefRows(id, Moves, TypeRefs(doc.moves), idOf));
    if species.Some? {
      ThenRefsOrdered(t, id, doc.name, p3, Dex, DexRefs(species.value.pokedexNumbers), idOf);
    }
  }

  /** Executing the rows of one pokemon, even when a malformed URL cuts them short, keeps the database consistent. */
  lemma ProcessKeepsConsistent(t: Tables, id: int, f: Fetched)
    requires Consistent(t)
    ensures Consistent(InsertAll(t, Process(id, f).rows))
  {
    if f.pokemon.Some? {
      StatementsOrdered(t, id, f.pokemon.value, f.species, ExtractId);
      OrderedKeepsConsistent(t, Process(id, f).rows);
    }
  }
}
