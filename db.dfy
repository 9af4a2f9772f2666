/**
 * The SQLite database the loader writes, as an abstract state: entity tables are maps
 * from primary key to value, relationship tables are sets of rows. Every `insert_*`
 * helper of the loader is one `INSERT OR IGNORE`, modelled by `InsertOrIgnore`;
 * `insert_evolution` adds the existence check in front of it.
 */
module Db {
  import opened Text

  type Edge = (int, int)

  /** One row offered to an `INSERT OR IGNORE` statement. */
  datatype Row =
    | PokemonRow(pokemonId: int, name: String)
    | TypeRow(typeId: int, name: String)
    | StatRow(statId: int, name: String)
    | MoveRow(moveId: int, name: String)
    | DexRow(dexId: int, name: String)
    | HeightRow(pokemonId: int, value: int)
    | WeightRow(pokemonId: int, value: int)
    | PokemonTypeRow(pokemonId: int, typeId: int)
    | PokemonStatRow(pokemonId: int, statId: int, value: int)
    | PokemonMoveRow(pokemonId: int, moveId: int)
    | PokemonNumberRow(pokemonId: int, dexId: int)
    | EvolutionRow(fromId: int, toId: int)

  datatype Tables = Tables(
    pokemon: map<int, String>,
    types: map<int, String>,
    stats: map<int, String>,
    moves: map<int, String>,
    dex: map<int, String>,
    height: map<int, int>,
    weight: map<int, int>,
    pokemonType: set<(int, int)>,
    pokemonStat: set<(int, int, int)>,
    pokemonMove: set<(int, int)>,
    pokemonNumber: set<(int, int)>,
    evolutions: set<Edge>)

  const Empty := Tables(map[], map[], map[], map[], map[], map[], map[], {}, {}, {}, {}, {})

  /** A row with the same primary key as `r` is already stored, so inserting `r` is ignored. */
  predicate HasKey(t: Tables, r: Row)
  {
    match r
    case PokemonRow(id, _) => id in t.pokemon
    case TypeRow(id, _) => id in t.types
    case StatRow(id, _) => id in t.stats
    case MoveRow(id, _) => id in t.moves
    case DexRow(id, _) => id in t.dex
    case HeightRow(id, _) => id in t.height
    case WeightRow(id, _) => id in t.weight
    case PokemonTypeRow(p, x) => (p, x) in t.pokemonType
    case PokemonStatRow(p, x, v) => (p, x, v) in t.pokemonStat
    case PokemonMoveRow(p, x) => (p, x) in t.pokemonMove
    case PokemonNumberRow(p, x) => (p, x) in t.pokemonNumber
    case EvolutionRow(a, b) => (a, b) in t.evolutions
  }

  /** The row `r` itself, key and value, is stored. */
  predicate Stored(t: Tables, r: Row)
  {
    match r
    case PokemonRow(id, v) => id in t.pokemon && t.pokemon[id] == v
    case TypeRow(id, v) => id in t.types && t.types[id] == v
    case StatRow(id, v) => id in t.stats && t.stats[id] == v
    case MoveRow(id, v) => id in t.moves && t.moves[id] == v
    case DexRow(id, v) => id in t.dex && t.dex[id] == v
    case HeightRow(id, v) => id in t.height && t.height[id] == v
    case WeightRow(id, v) => id in t.weight && t.weight[id] == v
    case _ => HasKey(t, r)
  }

  /** Two rows that would collide on the same primary key of the same table. */
  predicate SameKey(r: Row, s: Row)
  {
    match (r, s)
    case (PokemonRow(a, _), PokemonRow(b, _)) => a == b
    case (TypeRow(a, _), TypeRow(b, _)) => a == b
    case (StatRow(a, _), StatRow(b, _)) => a == b
    case (MoveRow(a, _), MoveRow(b, _)) => a == b
    case (DexRow(a, _), DexRow(b, _)) => a == b
    case (HeightRow(a, _), HeightRow(b, _)) => a == b
    case (WeightRow(a, _), WeightRow(b, _)) => a == b
    case _ => r == s
  }

  /**
   * `INSERT OR IGNORE`: afterwards the key is taken; when it was taken already nothing
   * changes, and when it was free the row itself is stored.
   */
  function InsertOrIgnore(t: Tables, r: Row): (t': Tables)
    ensures HasKey(t', r)
    ensures HasKey(t, r) ==> t' == t
    ensures !HasKey(t, r) ==> Stored(t', r)
  {
    if HasKey(t, r) then t
    else match r
      case PokemonRow(id, v) => t.(pokemon := t.pokemon[id := v])
      case TypeRow(id, v) => t.(types := t.types[id := v])
      case StatRow(id, v) => t.(stats := t.stats[id := v])
      case MoveRow(id, v) => t.(moves := t.moves[id := v])
      case DexRow(id, v) => t.(dex := t.dex[id := v])
      case HeightRow(id, v) => t.(height := t.height[id := v])
      case WeightRow(id, v) => t.(weight := t.weight[id := v])
      case PokemonTypeRow(p, x) => t.(pokemonType := t.pokemonType + {(p, x)})
      case PokemonStatRow(p, x, v) => t.(pokemonStat := t.pokemonStat + {(p, x, v)})
      case PokemonMoveRow(p, x) => t.(pokemonMove := t.pokemonMove + {(p, x)})
      case PokemonNumberRow(p, x) => t.(pokemonNumber := t.pokemonNumber + {(p, x)})
      case EvolutionRow(a, b) => t.(evolutions := t.evolutions + {(a, b)})
  }

  /** No stored key or row is ever removed or overwritten, and no row other than `r` appears. */
  lemma InsertOrIgnoreKeeps(t: Tables, r: Row)
    ensures forall s :: HasKey(t, s) ==> HasKey(InsertOrIgnore(t, r), s)
    ensures forall s :: Stored(t, s) ==> Stored(InsertOrIgnore(t, r), s)
    ensures forall s :: Stored(InsertOrIgnore(t, r), s) ==> Stored(t, s) || s == r
  {
    forall s
      ensures HasKey(t, s) ==> HasKey(InsertOrIgnore(t, r), s)
      ensures Stored(t, s) ==> Stored(InsertOrIgnore(t, r), s)
      ensures Stored(InsertOrIgnore(t, r), s) ==> Stored(t, s) || s == r
    {
      KeyKept(t, r, s);
      RowKept(t, r, s);
      NoOtherRow(t, r, s);
    }
  }

  lemma KeyKept(t: Tables, r: Row, s: Row)
    ensures HasKey(t, s) ==> HasKey(InsertOrIgnore(t, r), s)
  {
    if !HasKey(t, r) {
      match r
      case PokemonRow(_, _) =>
      case TypeRow(_, _) =>
      case StatRow(_, _) =>
      case MoveRow(_, _) =>
      case DexRow(_, _) =>
      case HeightRow(_, _) =>
      case WeightRow(_, _) =>
      case PokemonTypeRow(_, _) =>
      case PokemonStatRow(_, _, _) =>
      case PokemonMoveRow(_, _) =>
      case PokemonNumberRow(_, _) =>
      case EvolutionRow(_, _) =>
    }
  }

  lemma RowKept(t: Tables, r: Row, s: Row)
    ensures Stored(t, s) ==> Stored(InsertOrIgnore(t, r), s)
  {
    if !HasKey(t, r) {
      match r
      case PokemonRow(_, _) =>
      case TypeRow(_, _) =>
      case StatRow(_, _) =>
      case MoveRow(_, _) =>
      case DexRow(_, _) =>
      case HeightRow(_, _) =>
      case WeightRow(_, _) =>
      case PokemonTypeRow(_, _) =>
      case PokemonStatRow(_, _, _) =>
      case PokemonMoveRow(_, _) =>
      case PokemonNumberRow(_, _) =>
      case EvolutionRow(_, _) =>
    }
  }

  lemma NoOtherRow(t: Tables, r: Row, s: Row)
    ensures Stored(InsertOrIgnore(t, r), s) ==> Stored(t, s) || s == r
  {
    if !HasKey(t, r) {
      match r
      case PokemonRow(_, _) =>
      case TypeRow(_, _) =>
      case StatRow(_, _) =>
      case MoveRow(_, _) =>
      case DexRow(_, _) =>
      case HeightRow(_, _) =>
      case WeightRow(_, _) =>
      case PokemonTypeRow(_, _) =>
      case PokemonStatRow(_, _, _) =>
      case PokemonMoveRow(_, _) =>
      case PokemonNumberRow(_, _) =>
      case EvolutionRow(_, _) =>
    }
  }

  /** The statements of `rows` executed one after the other. */
  function InsertAll(t: Tables, rows: seq<Row>): Tables
    decreases |rows|
  {
    if rows == [] then t else InsertAll(InsertOrIgnore(t, rows[0]), rows[1..])
  }

  lemma {:induction false} InsertAllAppend(t: Tables, a: seq<Row>, b: seq<Row>)
    ensures InsertAll(t, a + b) == InsertAll(InsertAll(t, a), b)
    decreases |a|
  {
    if a == [] {
      assert a + b == b;
    } else {
      assert (a + b)[1..] == a[1..] + b;
      InsertAllAppend(InsertOrIgnore(t, a[0]), a[1..], b);
    }
  }

  /** Keys once present stay present: `INSERT OR IGNORE` never deletes. */
  lemma {:induction false} InsertAllKeepsKeys(t: Tables, rows: seq<Row>, r: Row)
    requires HasKey(t, r)
    ensures HasKey(InsertAll(t, rows), r)
    decreases |rows|
  {
    if rows != [] {
      var t1 := InsertOrIgnore(t, rows[0]);
      InsertOrIgnoreKeeps(t, rows[0]);
      InsertAllKeepsKeys(t1, rows[1..], r);
    }
  }

  /** After a batch of inserts, the key of every offered row is present. */
  lemma {:induction false} InsertAllCoversKeys(t: Tables, rows: seq<Row>)
    ensures forall i :: 0 <= i < |rows| ==> HasKey(InsertAll(t, rows), rows[i])
    decreases |rows|
  {
    if rows != [] {
      var t1 := InsertOrIgnore(t, rows[0]);
      InsertAllCoversKeys(t1, rows[1..]);
      InsertAllKeepsKeys(t1, rows[1..], rows[0]);
      assert forall i :: 1 <= i < |rows| ==> rows[i] == rows[1..][i - 1];
    }
  }

  /** Offering rows whose keys are all present changes nothing. */
  lemma {:induction false} InsertAllPresent(t: Tables, rows: seq<Row>)
    requires forall i :: 0 <= i < |rows| ==> HasKey(t, rows[i])
    ensures InsertAll(t, rows) == t
    decreases |rows|
  {
    if rows != [] {
      assert forall i :: 0 <= i < |rows[1..]| ==> HasKey(t, rows[1..][i]);
      InsertAllPresent(t, rows[1..]);
    }
  }

  /** Idempotence: executing the same batch of `INSERT OR IGNORE` statements twice equals executing it once. */
  lemma InsertAllIdempotent(t: Tables, rows: seq<Row>)
    ensures InsertAll(InsertAll(t, rows), rows) == InsertAll(t, rows)
  {
    InsertAllCoversKeys(t, rows);
    InsertAllPresent(InsertAll(t, rows), rows);
  }

  /** No stored row is overwritten or removed by any batch of inserts. */
  lemma {:induction false} InsertAllNeverOverwrites(t: Tables, rows: seq<Row>, s: Row)
    requires Stored(t, s)
    ensures Stored(InsertAll(t, rows), s)
    decreases |rows|
  {
    if rows != [] {
      InsertOrIgnoreKeeps(t, rows[0]);
      InsertAllNeverOverwrites(InsertOrIgnore(t, rows[0]), rows[1..], s);
    }
  }

  /** `SELECT COUNT(*) FROM pokemon WHERE pokemon_id IN (a, b)`: the stored pokemon among {a, b}. */
  function PokemonCount(t: Tables, a: int, b: int): (n: nat)
    ensures n <= 2
    ensures n == 2 <==> a != b && a in t.pokemon && b in t.pokemon
  {
    var ids := {a, b} * t.pokemon.Keys;
    if a == b then
      assert ids == if a in t.pokemon then {a} else {};
      |ids|
    else if a in t.pokemon && b in t.pokemon then
      assert ids == {a, b};
      |ids|
    else if a in t.pokemon then
      assert ids == {a};
      |ids|
    else if b in t.pokemon then
      assert ids == {b};
      |ids|
    else
      assert ids == {};
      |ids|
  }

  /**
   * `insert_evolution`: the edge is offered to `INSERT OR IGNORE` only when the count of
   * stored endpoints is 2; a self-edge counts 1 and is therefore never inserted.
   */
  function InsertEvolution(t: Tables, a: int, b: int): (t': Tables)
    ensures (a, b) in t'.evolutions <==> (a, b) in t.evolutions || (a != b && a in t.pokemon && b in t.pokemon)
    ensures t'.evolutions - {(a, b)} == t.evolutions - {(a, b)}
    ensures t' == t.(evolutions := t'.evolutions)
  {
    if PokemonCount(t, a, b) == 2 then InsertOrIgnore(t, EvolutionRow(a, b)) else t
  }

  /** The referential guard: an edge is added exactly when both endpoints exist and differ; otherwise nothing changes. */
  lemma InsertEvolutionGuard(t: Tables, a: int, b: int)
    ensures InsertEvolution(t, a, b) != t ==> a != b && a in t.pokemon && b in t.pokemon
    ensures (a == b || a !in t.pokemon || b !in t.pokemon) ==> InsertEvolution(t, a, b) == t
  {
  }

  /**
   * Referential integrity of the stored rows: every attribute and relationship row
   * names stored entities, and every evolution edge joins two stored pokemon.
   */
  ghost predicate Consistent(t: Tables)
  {
    && t.height.Keys <= t.pokemon.Keys
    && t.weight.Keys <= t.pokemon.Keys
    && (forall e :: e in t.pokemonType ==> e.0 in t.pokemon && e.1 in t.types)
    && (forall e :: e in t.pokemonStat ==> e.0 in t.pokemon && e.1 in t.stats)
    && (forall e :: e in t.pokemonMove ==> e.0 in t.pokemon && e.1 in t.moves)
    && (forall e :: e in t.pokemonNumber ==> e.0 in t.pokemon && e.1 in t.dex)
    && (forall e :: e in t.evolutions ==> e.0 in t.pokemon && e.1 in t.pokemon)
  }

  /** The entities a row refers to are stored (always true of entity rows). */
  predicate RefsPresent(t: Tables, r: Row)
  {
    match r
    case HeightRow(p, _) => p in t.pokemon
    case WeightRow(p, _) => p in t.pokemon
    case PokemonTypeRow(p, x) => p in t.pokemon && x in t.types
    case PokemonStatRow(p, x, _) => p in t.pokemon && x in t.stats
    case PokemonMoveRow(p, x) => p in t.pokemon && x in t.moves
    case PokemonNumberRow(p, x) => p in t.pokemon && x in t.dex
    case EvolutionRow(a, b) => a in t.pokemon && b in t.pokemon
    case _ => true
  }

  lemma InsertKeepsConsistent(t: Tables, r: Row)
    requires Consistent(t) && RefsPresent(t, r)
    ensures Consistent(InsertOrIgnore(t, r))
  {
  }

  /** `insert_evolution` keeps every stored edge between stored pokemon. */
  lemma InsertEvolutionKeepsConsistent(t: Tables, a: int, b: int)
    requires Consistent(t)
    ensures Consistent(InsertEvolution(t, a, b))
  {
  }

  /** Each row, when executed in turn, finds the entities it refers to already stored. */
  ghost predicate Ordered(t: Tables, rows: seq<Row>)
    decreases |rows|
  {
    rows == [] || (RefsPresent(t, rows[0]) && Ordered(InsertOrIgnore(t, rows[0]), rows[1..]))
  }

  lemma {:induction false} OrderedAppend(t: Tables, a: seq<Row>, b: seq<Row>)
    requires Ordered(t, a) && Ordered(InsertAll(t, a), b)
    ensures Ordered(t, a + b)
    decreases |a|
  {
    if a == [] {
      assert a + b == b;
    } else {
      assert (a + b)[1..] == a[1..] + b;
      OrderedAppend(InsertOrIgnore(t, a[0]), a[1..], b);
    }
  }

  /** A batch executed in a referentially safe order keeps the database consistent. */
  lemma {:induction false} OrderedKeepsConsistent(t: Tables, rows: seq<Row>)
    requires Consistent(t) && Ordered(t, rows)
    ensures Consistent(InsertAll(t, rows))
    decreases |rows|
  {
    if rows != [] {
      InsertKeepsConsistent(t, rows[0]);
      OrderedKeepsConsistent(InsertOrIgnore(t, rows[0]), rows[1..]);
    }
  }
}
