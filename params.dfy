/**
 * The parameter handling of the query console's `execute_query`. Each declared input
 * parameter of a query reads one typed line. An empty line falls back to the
 * parameter's default, and the line is then turned into the values bound to the
 * statement's `?` placeholders. SELECT queries and modification queries follow
 * different rules. A modification runs only after an explicit "yes", and its text
 * is split into statements on `;`.
 */
module QueryParams {
  import opened Wrappers
  import opened Text

  /** The declared `type` of a parameter; a parameter without one is `str`. */
  datatype ParamType = Like | In | IntParam | StrParam | OtherType(tag: String)

  /** A parameter's `default` as the query table writes it: an integer or a text; a missing one is `''`. */
  datatype Default = IntDefault(n: int) | TextDefault(s: String)

  /** One entry of a query's `input_params`. */
  datatype Param = Param(name: String, kind: ParamType, default: Default)

  /** Python truthiness of a default: a non-zero integer or a non-empty text. */
  predicate Truthy(d: Default)
  {
    match d
    case IntDefault(n) => n != 0
    case TextDefault(s) => s != []
  }

  /** `str(param_default)`. */
  function DefaultText(d: Default): String
  {
    match d
    case IntDefault(n) => IntToString(n)
    case TextDefault(s) => s
  }

  /** A value bound to a `?` placeholder. */
  datatype Value = IntValue(i: int) | TextValue(s: String)

  /** Why a parameter stops the query; `execute_query` then returns False. */
  datatype ParamError =
    | Required(name: String)
    | InvalidInteger(input: String)
    | InvalidDefault(text: String)
    | DefaultNotText(n: int)
    | MissingInValues

  /** `int(param_default)`, whose ValueError on a text that is not an integer stops the query. */
  function DefaultInt(d: Default): Result<int, ParamError>
  {
    match d
    case IntDefault(n) => Ok(n)
    case TextDefault(s) =>
      match ParseInt(s)
      case Some(n) => Ok(n)
      case None => Err(InvalidDefault(s))
  }

  /** The integer value of a default, or the error its conversion raises. */
  function DefaultIntValue(d: Default): Result<Value, ParamError>
  {
    match DefaultInt(d)
    case Ok(n) => Ok(IntValue(n))
    case Err(e) => Err(e)
  }

  /**
   * `int(str(param_default))`, the conversion of an empty line replaced by its default,
   * parses exactly when `int(param_default)` does, and to the same number.
   */
  lemma DefaultTextParses(d: Default)
    ensures DefaultInt(d).Ok? ==> ParseInt(DefaultText(d)) == Some(DefaultInt(d).value)
    ensures DefaultInt(d).Err? ==> ParseInt(DefaultText(d)).None?
  {
    if d.IntDefault? {
      IntRoundTrip(d.n);
    }
  }

  // ---------------------------------------------------------------------------
  // The per-type transforms

  /** The `like` transform: the input wrapped in `%`, unless it already holds one. */
  function LikePattern(u: String): (r: String)
    ensures '%' in r
    ensures '%' in u ==> r == u
    ensures '%' !in u ==> r == ['%'] + u + ['%']
  {
    if '%' in u then u else "%" + u + "%"
  }

  /** Wrapping is done at most once: a pattern is its own pattern. */
  lemma LikePatternIdempotent(u: String)
    ensures LikePattern(LikePattern(u)) == LikePattern(u)
  {
  }

  /** `[t.strip() for t in parts if t.strip()]`: the pieces that are not blank, stripped, in order. */
  function NonBlank(parts: seq<String>): (r: seq<String>)
    ensures |r| <= |parts|
    ensures forall i :: 0 <= i < |r| ==> r[i] != [] && Strip(r[i]) == r[i]
    decreases |parts|
  {
    if parts == [] then []
    else
      var t := Strip(parts[0]);
      var rest := NonBlank(parts[1..]);
      StripIdempotent(parts[0]);
      if t != [] then [t] + rest else rest
  }

  /** A character missing from every piece is missing from every kept piece. */
  lemma {:induction false} NonBlankAvoids(parts: seq<String>, c: char)
    requires forall j :: 0 <= j < |parts| ==> c !in parts[j]
    ensures forall i :: 0 <= i < |NonBlank(parts)| ==> c !in NonBlank(parts)[i]
    decreases |parts|
  {
    if parts != [] {
      var rest := parts[1..];
      assert forall j :: 0 <= j < |rest| ==> rest[j] == parts[j + 1];
      NonBlankAvoids(rest, c);
      var t := Strip(parts[0]);
      StripKeepsAbsence(parts[0], c);
      var r := NonBlank(parts);
      if t != [] {
        assert r == [t] + NonBlank(rest);
        forall i | 0 <= i < |r| ensures c !in r[i] {
          if i > 0 {
            assert r[i] == NonBlank(rest)[i - 1];
          }
        }
      } else {
        assert r == NonBlank(rest);
      }
    }
  }

  /** Pieces that are already non-blank and stripped are all kept, unchanged. */
  lemma {:induction false} NonBlankKeeps(parts: seq<String>)
    requires forall j :: 0 <= j < |parts| ==> parts[j] != [] && Strip(parts[j]) == parts[j]
    ensures NonBlank(parts) == parts
    decreases |parts|
  {
    if parts != [] {
      NonBlankKeeps(parts[1..]);
      assert parts == [parts[0]] + parts[1..];
    }
  }

  /** Lower-casing never turns a character into whitespace or into `c` unless it was one already. */
  lemma LowerCharKeeps(x: char, c: char)
    requires !('A' <= c <= 'Z') && !('a' <= c <= 'z')
    ensures IsSpace(LowerChar(x)) == IsSpace(x)
    ensures LowerChar(x) == c <==> x == c
  {
  }

  /** A lower-cased stripped text is still stripped, and avoids the characters the original avoided. */
  lemma LowerStripped(x: String, c: char)
    requires x != [] && Strip(x) == x && c !in x && !('A' <= c <= 'Z') && !('a' <= c <= 'z')
    ensures Strip(Lower(x)) == Lower(x) && c !in Lower(x)
  {
    StripEnds(x);
    var l := Lower(x);
    LowerCharKeeps(x[0], c);
    LowerCharKeeps(x[|x| - 1], c);
    StripFixed(l);
    forall i | 0 <= i < |x|
      ensures l[i] != c
    {
      LowerCharKeeps(x[i], c);
    }
  }

  /** The IN transform: `[t.strip().lower() for t in s.split(',') if t.strip()]`. */
  function InItems(s: String): (r: seq<String>)
    ensures |r| <= |Split(s, ',')|
    ensures forall i :: 0 <= i < |r| ==>
      r[i] != [] && Strip(r[i]) == r[i] && Lower(r[i]) == r[i] && ',' !in r[i]
  {
    var parts := Split(s, ',');
    var kept := NonBlank(parts);
    NonBlankAvoids(parts, ',');
    LowerAllClean(kept);
    LowerAll(kept)
  }

  /** Each piece lower-cased. */
  function LowerAll(kept: seq<String>): (r: seq<String>)
    ensures |r| == |kept| && forall i :: 0 <= i < |r| ==> r[i] == Lower(kept[i])
  {
    seq(|kept|, i requires 0 <= i < |kept| => Lower(kept[i]))
  }

  /** Pieces that are lower-case already are left as they are. */
  lemma LowerAllFixed(items: seq<String>)
    requires forall i :: 0 <= i < |items| ==> Lower(items[i]) == items[i]
    ensures LowerAll(items) == items
  {
  }

  /** Lower-casing clean pieces keeps them clean, and makes them lower-case. */
  lemma LowerAllClean(kept: seq<String>)
    requires forall i :: 0 <= i < |kept| ==> kept[i] != [] && Strip(kept[i]) == kept[i] && ',' !in kept[i]
    ensures forall i :: 0 <= i < |kept| ==>
      var l := LowerAll(kept)[i];
      l != [] && Strip(l) == l && Lower(l) == l && ',' !in l
  {
    forall i | 0 <= i < |kept|
      ensures var l := LowerAll(kept)[i];
        l != [] && Strip(l) == l && Lower(l) == l && ',' !in l
    {
      LowerStripped(kept[i], ',');
      LowerIdempotent(kept[i]);
    }
  }

  /**
   * Round trip: a comma-joined list of items that are non-empty, stripped, lower-case and
   * comma-free reads back as exactly those items, in order.
   */
  lemma InItemsJoin(items: seq<String>)
    requires forall i :: 0 <= i < |items| ==>
      items[i] != [] && Strip(items[i]) == items[i] && Lower(items[i]) == items[i] && ',' !in items[i]
    ensures InItems(Join(items, ",")) == items
  {
    if items == [] {
      assert Split([], ',') == [[]];
      assert Strip([]) == [];
    } else {
      var s := Join(items, ",");
      SplitJoin(items, ',');
      assert Split(s, ',') == items;
      NonBlankKeeps(items);
      assert NonBlank(Split(s, ',')) == items;
      LowerAllFixed(items);
    }
  }

  /** Any mix of case and padding around the items reads as the same lower-case items. */
  lemma InItemsOfPaddedItem(pre: String, item: String, post: String)
    requires forall i :: 0 <= i < |pre| ==> IsSpace(pre[i])
    requires forall i :: 0 <= i < |post| ==> IsSpace(post[i])
    requires item != [] && Strip(item) == item && ',' !in item
    ensures InItems(pre + item + post) == [Lower(item)]
  {
    var s := pre + item + post;
    assert forall i :: 0 <= i < |s| ==> s[i] != ',' by {
      forall i | 0 <= i < |s| ensures s[i] != ',' {
        if i < |pre| {
          assert s[i] == pre[i];
        } else if i < |pre| + |item| {
          assert s[i] == item[i - |pre|];
        } else {
          assert s[i] == post[i - |pre| - |item|];
        }
      }
    }
    SplitNoSep(s, ',');
    StripPadded(pre, item, post);
    assert Split(s, ',')[1..] == [];
    assert NonBlank(Split(s, ',')) == [item];
  }

  /** Whitespace around a stripped text is exactly what `strip` removes. */
  lemma StripPadded(pre: String, x: String, post: String)
    requires forall i :: 0 <= i < |pre| ==> IsSpace(pre[i])
    requires forall i :: 0 <= i < |post| ==> IsSpace(post[i])
    requires x != [] && Strip(x) == x
    ensures Strip(pre + x + post) == x
  {
    StripEnds(x);
    var y := x + post;
    assert y[0] == x[0];
    LStripPadded(pre, y);
    assert pre + x + post == pre + y;
    assert LStrip(pre + x + post) == y;
    RStripPadded(x, post);
  }

  lemma LStripPadded(pre: String, y: String)
    requires forall i :: 0 <= i < |pre| ==> IsSpace(pre[i])
    requires y != [] && !IsSpace(y[0])
    ensures LStrip(pre + y) == y
  {
    var s := pre + y;
    var k := |s| - |LStrip(s)|;
    assert forall i :: 0 <= i < |pre| ==> s[i] == pre[i];
    assert s[|pre|] == y[0];
    assert k == |pre|;
    assert s[|pre|..] == y;
  }

  lemma {:induction false} RStripPadded(x: String, post: String)
    requires forall i :: 0 <= i < |post| ==> IsSpace(post[i])
    requires x != [] && !IsSpace(x[|x| - 1])
    ensures RStrip(x + post) == x
    decreases |post|
  {
    if post != [] {
      assert (x + post)[..|x + post| - 1] == x + post[..|post| - 1];
      RStripPadded(x, post[..|post| - 1]);
    } else {
      assert x + post == x;
    }
  }

  /** `','.join(['?' for _ in items])`: one `?` per value. */
  function Placeholders(n: nat): String
  {
    Join(seq(n, _ => "?"), ",")
  }

  /** The placeholder list holds one `?` per value, separated by commas, and nothing else. */
  lemma PlaceholdersShape(n: nat)
    ensures n > 0 ==> Split(Placeholders(n), ',') == seq(n, _ => "?")
    ensures |Placeholders(n)| == if n == 0 then 0 else 2 * n - 1
  {
    if n > 0 {
      SplitJoin(seq(n, _ => "?"), ',');
    }
    PlaceholdersLength(n);
  }

  lemma {:induction false} PlaceholdersLength(n: nat)
    ensures |Placeholders(n)| == if n == 0 then 0 else 2 * n - 1
  {
    if n > 1 {
      PlaceholdersLength(n - 1);
      assert seq(n, _ => "?")[1..] == seq(n - 1, _ => "?");
    }
  }

  /** Text values for a list of items. */
  function Texts(items: seq<String>): (r: seq<Value>)
    ensures |r| == |items| && forall i :: 0 <= i < |r| ==> r[i] == TextValue(items[i])
  {
    seq(|items|, i requires 0 <= i < |items| => TextValue(items[i]))
  }

  // ---------------------------------------------------------------------------
  // SELECT queries

  /** What one parameter contributes: values for its placeholders, and the placeholder list of an IN clause. */
  datatype Binding = Binding(values: seq<Value>, formats: seq<String>)

  /**
   * The line a SELECT parameter goes on with, given its stripped input `u`, after the
   * default rules; None when the parameter is skipped (an empty `int` or `in` input
   * without a default).
   */
  function SelectInput(p: Param, u: String): Option<String>
  {
    if u == [] && Truthy(p.default) then Some(DefaultText(p.default))
    else if u == [] then
      match p.kind
      case Like => Some("%")
      case IntParam => None
      case In => None
      case _ => Some([])
    else Some(u)
  }

  /** The items an `in` parameter binds: those of its line, else those of a truthy text default. */
  function InValues(u: String, d: Default): (r: Result<seq<String>, ParamError>)
    ensures r.Ok? ==> forall i :: 0 <= i < |r.value| ==>
      r.value[i] != [] && Strip(r.value[i]) == r.value[i] && Lower(r.value[i]) == r.value[i] && ',' !in r.value[i]
  {
    var items := InItems(u);
    if items != [] then Ok(items)
    else if !Truthy(d) then Err(MissingInValues)
    else
      match d
      case IntDefault(n) => Err(DefaultNotText(n))
      case TextDefault(s) => Ok(InItems(s))
  }

  /** The `in` transform of the line `u`: one text value per item and one `?` per item. */
  function InBinding(u: String, d: Default): Result<Binding, ParamError>
  {
    match InValues(u, d)
    case Err(e) => Err(e)
    case Ok(items) => Ok(Binding(Texts(items), [Placeholders(|items|)]))
  }

  /** The `int` transform of the line `u` in a SELECT query: the default, or 0, when it does not parse. */
  function IntBinding(u: String, d: Default): Result<Binding, ParamError>
  {
    match ParseInt(u)
    case Some(n) => Ok(Binding([IntValue(n)], []))
    case None =>
      if !Truthy(d) then Ok(Binding([IntValue(0)], []))
      else DefaultIntBinding(d)
  }

  /** The binding of `int(param_default)`, or the error that conversion raises. */
  function DefaultIntBinding(d: Default): Result<Binding, ParamError>
  {
    match DefaultInt(d)
    case Ok(n) => Ok(Binding([IntValue(n)], []))
    case Err(e) => Err(e)
  }

  /** The transform a SELECT parameter applies to its line `u`. */
  function SelectTransform(p: Param, u: String): Result<Binding, ParamError>
  {
    match p.kind
    case Like => Ok(Binding([TextValue(LikePattern(u))], []))
    case In => InBinding(u, p.default)
    case IntParam => IntBinding(u, p.default)
    case StrParam => Ok(Binding([TextValue(if p.name == "move_name" then Lower(u) else u)], []))
    case OtherType(_) => Ok(Binding([TextValue(u)], []))
  }

  /** One iteration of the SELECT parameter loop for the stripped input `u`. */
  function SelectLine(p: Param, u: String): Result<Binding, ParamError>
  {
    match SelectInput(p, u)
    case None => Ok(Binding([], []))
    case Some(v) => SelectTransform(p, v)
  }

  /** One iteration of the SELECT parameter loop for the line as typed, which is stripped first. */
  function SelectParam(p: Param, typed: String): Result<Binding, ParamError>
  {
    SelectLine(p, Strip(typed))
  }

  /** A `like` parameter always binds one pattern holding `%`; an empty line without a default binds `%` alone. */
  lemma SelectLike(p: Param, u: String)
    requires p.kind.Like?
    ensures SelectLine(p, u).Ok?
    ensures var b := SelectLine(p, u).value;
      |b.values| == 1 && b.values[0].TextValue? && '%' in b.values[0].s && b.formats == []
    ensures u == [] && !Truthy(p.default) ==> SelectLine(p, u).value.values == [TextValue("%")]
    ensures u != [] && '%' !in u ==> SelectLine(p, u).value.values == [TextValue(['%'] + u + ['%'])]
  {
  }

  /**
   * An `in` parameter binds clean items and one `?` per item, or nothing at all when
   * its line is empty and it has no default.
   */
  lemma SelectInClean(p: Param, u: String)
    requires p.kind.In?
    ensures var r := SelectLine(p, u);
      r.Ok? ==> (r.value.formats == [] && r.value.values == []) ||
                 r.value.formats == [Placeholders(|r.value.values|)]
    ensures var r := SelectLine(p, u);
      r.Ok? ==> forall i :: 0 <= i < |r.value.values| ==>
        var v := r.value.values[i];
        v.TextValue? && v.s != [] && Strip(v.s) == v.s && Lower(v.s) == v.s && ',' !in v.s
  {
    SelectInRoute(p, u);
    var i := SelectInput(p, u);
    if i.Some? {
      InBindingShape(i.value, p.default);
    }
  }

  /** An `in` parameter is skipped, or goes through the `in` transform of its line. */
  lemma SelectInRoute(p: Param, u: String)
    requires p.kind.In?
    ensures SelectInput(p, u).None? ==> SelectLine(p, u) == Ok(Binding([], []))
    ensures SelectInput(p, u).Some? ==> SelectLine(p, u) == InBinding(SelectInput(p, u).value, p.default)
  {
  }

  /** The `in` transform binds clean text values, with one `?` per value in its placeholder list. */
  lemma InBindingShape(u: String, d: Default)
    ensures var r := InBinding(u, d);
      r.Ok? ==> r.value.formats == [Placeholders(|r.value.values|)]
    ensures var r := InBinding(u, d);
      r.Ok? ==> forall i :: 0 <= i < |r.value.values| ==>
        var v := r.value.values[i];
        v.TextValue? && v.s != [] && Strip(v.s) == v.s && Lower(v.s) == v.s && ',' !in v.s
  {
    var iv := InValues(u, d);
    if iv.Ok? {
      assert InBinding(u, d) == Ok(Binding(Texts(iv.value), [Placeholders(|iv.value|)]));
    }
  }

  /**
   * An `in` parameter binds the items of a line that has some; a line without items
   * (only commas and blanks) falls back to the default and raises without one; an
   * empty line without a default skips the parameter.
   */
  lemma SelectInCases(p: Param, u: String)
    requires p.kind.In?
    ensures u != [] && InItems(u) != [] ==>
      SelectLine(p, u) == Ok(Binding(Texts(InItems(u)), [Placeholders(|InItems(u)|)]))
    ensures u != [] && InItems(u) == [] && !Truthy(p.default) ==> SelectLine(p, u) == Err(MissingInValues)
    ensures u != [] && InItems(u) == [] && p.default.TextDefault? && p.default.s != [] ==>
      SelectLine(p, u) == Ok(Binding(Texts(InItems(p.default.s)), [Placeholders(|InItems(p.default.s)|)]))
    ensures u == [] && !Truthy(p.default) ==> SelectLine(p, u) == Ok(Binding([], []))
  {
  }

  /** A non-empty line goes through its parameter's transform as it is. */
  lemma SelectRoute(p: Param, u: String)
    requires u != []
    ensures SelectLine(p, u) == SelectTransform(p, u)
  {
    assert SelectInput(p, u) == Some(u);
  }

  /** An `int` line that parses binds its value. */
  lemma SelectIntParsed(p: Param, u: String)
    requires p.kind.IntParam? && u != [] && ParseInt(u).Some?
    ensures SelectLine(p, u) == Ok(Binding([IntValue(ParseInt(u).value)], []))
  {
    SelectRoute(p, u);
    assert SelectTransform(p, u) == IntBinding(u, p.default);
  }

  /**
   * An `int` line that does not parse binds `int(default)` when the default is truthy,
   * and fails when that conversion raises; without a default it binds 0.
   */
  lemma SelectIntFallback(p: Param, u: String)
    requires p.kind.IntParam? && u != [] && ParseInt(u).None?
    ensures !Truthy(p.default) ==> SelectLine(p, u) == Ok(Binding([IntValue(0)], []))
    ensures Truthy(p.default) ==> SelectLine(p, u) == DefaultIntBinding(p.default)
  {
    SelectRoute(p, u);
    assert SelectTransform(p, u) == IntBinding(u, p.default);
  }

  /**
   * An empty `int` line skips the parameter without a default; with a truthy default it
   * binds `int(default)`, and fails when that conversion raises.
   */
  lemma SelectIntEmpty(p: Param)
    requires p.kind.IntParam?
    ensures !Truthy(p.default) ==> SelectLine(p, []) == Ok(Binding([], []))
    ensures Truthy(p.default) ==> SelectLine(p, []) == DefaultIntBinding(p.default)
  {
    if Truthy(p.default) {
      DefaultTextParses(p.default);
      assert SelectInput(p, []) == Some(DefaultText(p.default));
      assert SelectLine(p, []) == IntBinding(DefaultText(p.default), p.default);
    }
  }

  /** `int()` strips its argument itself, so stripping the line first changes nothing. */
  lemma ParseIntStripped(s: String)
    ensures ParseInt(Strip(s)) == ParseInt(s)
  {
    StripIdempotent(s);
  }

  /** A `str` parameter binds its stripped line, lower-cased only for the parameter named `move_name`. */
  lemma SelectStr(p: Param, u: String)
    requires p.kind.StrParam? && u != []
    ensures p.name == "move_name" ==> SelectLine(p, u) == Ok(Binding([TextValue(Lower(u))], []))
    ensures p.name != "move_name" ==> SelectLine(p, u) == Ok(Binding([TextValue(u)], []))
  {
    SelectRoute(p, u);
  }

  // ---------------------------------------------------------------------------
  // The parameter loops

  /** A loop over steps that stops at the first error: all the values in order, or that error. */
  function Collect<T>(steps: seq<Result<T, ParamError>>): Result<seq<T>, ParamError>
    decreases |steps|
  {
    if steps == [] then Ok([])
    else
      var n := |steps| - 1;
      match Collect(steps[..n])
      case Err(e) => Err(e)
      case Ok(vs) => if steps[n].Err? then Err(steps[n].error) else Ok(vs + [steps[n].value])
  }

  /**
   * The loop succeeds exactly when every step does, and then yields each step's value
   * in order; otherwise it fails with the error of the first step that fails.
   */
  lemma {:induction false} CollectResult<T>(steps: seq<Result<T, ParamError>>)
    ensures Collect(steps).Ok? <==> forall i :: 0 <= i < |steps| ==> steps[i].Ok?
    ensures Collect(steps).Ok? ==>
      |Collect(steps).value| == |steps| &&
      forall i :: 0 <= i < |steps| ==> Collect(steps).value[i] == steps[i].value
    ensures Collect(steps).Err? ==>
      exists k :: && 0 <= k < |steps|
                  && steps[k] == Err(Collect(steps).error)
                  && forall i :: 0 <= i < k ==> steps[i].Ok?
    decreases |steps|
  {
    if steps != [] {
      var n := |steps| - 1;
      CollectResult(steps[..n]);
      assert forall i :: 0 <= i < n ==> steps[..n][i] == steps[i];
    }
  }

  /** Once the loop has failed on a prefix of the steps, it fails with the same error on all of them. */
  lemma {:induction false} CollectStops<T>(steps: seq<Result<T, ParamError>>, k: nat)
    requires k <= |steps| && Collect(steps[..k]).Err?
    ensures Collect(steps) == Collect(steps[..k])
    decreases |steps| - k
  {
    if k < |steps| {
      assert steps[..k + 1][..k] == steps[..k];
      CollectStops(steps, k + 1);
    } else {
      assert steps[..k] == steps;
    }
  }

  /** One more step of the loop: it either fails with that step's error, or appends that step's value. */
  lemma CollectNext<T>(steps: seq<Result<T, ParamError>>, i: nat, vs: seq<T>)
    requires i < |steps| && Collect(steps[..i]) == Ok(vs)
    ensures steps[i].Err? ==> Collect(steps) == Err(steps[i].error)
    ensures steps[i].Ok? ==> Collect(steps[..i + 1]) == Ok(vs + [steps[i].value])
  {
    assert steps[..i + 1][..i] == steps[..i];
    if steps[i].Err? {
      CollectStops(steps, i + 1);
    }
  }

  /** The step of the SELECT loop for each parameter and its typed line. */
  function SelectSteps(params: seq<Param>, inputs: seq<String>): (r: seq<Result<Binding, ParamError>>)
    requires |inputs| == |params|
    ensures |r| == |params| && forall i :: 0 <= i < |params| ==> r[i] == SelectParam(params[i], inputs[i])
  {
    seq(|params|, i requires 0 <= i < |params| && i < |inputs| => SelectParam(params[i], inputs[i]))
  }

  function AllValues(bs: seq<Binding>): seq<Value>
    decreases |bs|
  {
    if bs == [] then [] else AllValues(bs[..|bs| - 1]) + bs[|bs| - 1].values
  }

  function AllFormats(bs: seq<Binding>): seq<String>
    decreases |bs|
  {
    if bs == [] then [] else AllFormats(bs[..|bs| - 1]) + bs[|bs| - 1].formats
  }

  lemma AllNext(bs: seq<Binding>, b: Binding)
    ensures AllValues(bs + [b]) == AllValues(bs) + b.values
    ensures AllFormats(bs + [b]) == AllFormats(bs) + b.formats
  {
    assert (bs + [b])[..|bs|] == bs;
  }

  /** The SELECT parameter loop: the bindings of all parameters, concatenated, or the first error. */
  function SelectAll(params: seq<Param>, inputs: seq<String>): Result<Binding, ParamError>
    requires |inputs| == |params|
  {
    match Collect(SelectSteps(params, inputs))
    case Err(e) => Err(e)
    case Ok(bs) => Ok(Binding(AllValues(bs), AllFormats(bs)))
  }

  /**
   * The SELECT loop succeeds exactly when every parameter does; otherwise it fails with
   * the error of the first parameter that fails.
   */
  lemma SelectAllResult(params: seq<Param>, inputs: seq<String>)
    requires |inputs| == |params|
    ensures SelectAll(params, inputs).Ok? <==> forall i :: 0 <= i < |params| ==> SelectParam(params[i], inputs[i]).Ok?
    ensures SelectAll(params, inputs).Err? ==>
      exists k :: && 0 <= k < |params|
                  && SelectParam(params[k], inputs[k]) == Err(SelectAll(params, inputs).error)
                  && forall i :: 0 <= i < k ==> SelectParam(params[i], inputs[i]).Ok?
  {
    CollectResult(SelectSteps(params, inputs));
  }

  /**
   * The SELECT parameter loop: one typed line per declared parameter, in order; the
   * values and IN placeholder lists are accumulated, and the first error ends the loop.
   */
  method BindSelect(params: seq<Param>, inputs: seq<String>) returns (r: Result<Binding, ParamError>)
    requires |inputs| == |params|
    ensures r == SelectAll(params, inputs)
  {
    ghost var steps := SelectSteps(params, inputs);
    ghost var bs: seq<Binding> := [];
    var values: seq<Value> := [];
    var formats: seq<String> := [];
    var i := 0;
    while i < |params|
      invariant 0 <= i <= |params|
      invariant Collect(steps[..i]) == Ok(bs)
      invariant values == AllValues(bs) && formats == AllFormats(bs)
    {
      var step := SelectParam(params[i], inputs[i]);
      CollectNext(steps, i, bs);
      if step.Err? {
        return Err(step.error);
      }
      AllNext(bs, step.value);
      values := values + step.value.values;
      formats := formats + step.value.formats;
      bs := bs + [step.value];
      i := i + 1;
    }
    assert steps[..i] == steps;
    return Ok(Binding(values, formats));
  }

  // ---------------------------------------------------------------------------
  // Modification queries

  /**
   * The line a modification parameter goes on with, given its stripped input `u`: the
   * default when the line is empty and the default truthy; an error for an empty
   * required `int` or `str`.
   */
  function ModInput(p: Param, u: String): Result<String, ParamError>
  {
    if u == [] && Truthy(p.default) then Ok(DefaultText(p.default))
    else if u == [] then
      match p.kind
      case IntParam => Err(Required(p.name))
      case StrParam => Err(Required(p.name))
      case _ => Ok([])
    else Ok(u)
  }

  /** One iteration of the modification parameter loop for the stripped input `u`: one value, or an error. */
  function ModLine(p: Param, u: String): Result<Value, ParamError>
  {
    match ModInput(p, u)
    case Err(e) => Err(e)
    case Ok(v) =>
      if p.kind.IntParam? then
        match ParseInt(v)
        case Some(n) => Ok(IntValue(n))
        case None =>
          if !Truthy(p.default) then Err(InvalidInteger(v))
          else DefaultIntValue(p.default)
      else Ok(TextValue(v))
  }

  /** One iteration of the modification parameter loop for the line as typed, which is stripped first. */
  function ModParam(p: Param, typed: String): Result<Value, ParamError>
  {
    ModLine(p, Strip(typed))
  }

  /** An empty `int` or `str` line without a default is refused: the parameter is required. */
  lemma ModRequiredEmpty(p: Param)
    requires !Truthy(p.default) && (p.kind.IntParam? || p.kind.StrParam?)
    ensures ModLine(p, []) == Err(Required(p.name))
  {
  }

  /** Any other empty line without a default is bound as the empty text. */
  lemma ModOptionalEmpty(p: Param)
    requires !Truthy(p.default) && !p.kind.IntParam? && !p.kind.StrParam?
    ensures ModLine(p, []) == Ok(TextValue([]))
  {
  }

  /** An `int` line that parses binds its value. */
  lemma ModIntParsed(p: Param, u: String)
    requires p.kind.IntParam? && u != [] && ParseInt(u).Some?
    ensures ModLine(p, u) == Ok(IntValue(ParseInt(u).value))
  {
  }

  /**
   * An `int` line that does not parse is refused without a default; with a truthy
   * default it binds `int(default)`, and fails when that conversion raises.
   */
  lemma ModIntInvalid(p: Param, u: String)
    requires p.kind.IntParam? && u != [] && ParseInt(u).None?
    ensures !Truthy(p.default) ==> ModLine(p, u) == Err(InvalidInteger(u))
    ensures Truthy(p.default) ==> ModLine(p, u) == DefaultIntValue(p.default)
    ensures p.default.TextDefault? && p.default.s != [] && ParseInt(p.default.s).Some? ==>
      ModLine(p, u) == Ok(IntValue(ParseInt(p.default.s).value))
  {
  }

  /** Every type other than `int` takes the line as it is, with no lower-casing. */
  lemma ModText(p: Param, u: String)
    requires !p.kind.IntParam? && u != []
    ensures ModLine(p, u) == Ok(TextValue(u))
  {
  }

  /**
   * An empty line with a truthy default goes on as `str(default)`: an `int` parameter
   * binds `int(default)`, or fails when that conversion raises; any other type binds
   * the default's text.
   */
  lemma ModEmptyDefault(p: Param)
    requires Truthy(p.default)
    ensures p.kind.IntParam? ==> ModLine(p, []) == DefaultIntValue(p.default)
    ensures !p.kind.IntParam? ==> ModLine(p, []) == Ok(TextValue(DefaultText(p.default)))
    ensures p.kind.IntParam? && p.default.TextDefault? && ParseInt(p.default.s).Some? ==>
      ModLine(p, []) == Ok(IntValue(ParseInt(p.default.s).value))
  {
    DefaultTextParses(p.default);
    assert ModInput(p, []) == Ok(DefaultText(p.default));
  }

  /**
   * The text default `'10'` of the `stat_increase` parameter: an empty line and a line
   * that is not a number both bind the number 10.
   */
  lemma StatIncreaseDefault(u: String)
    requires u != [] && ParseInt(u).None?
    ensures var p := Param("stat_increase", IntParam, TextDefault("10"));
      ModLine(p, []) == Ok(IntValue(10)) && ModLine(p, u) == Ok(IntValue(10))
  {
    var p := Param("stat_increase", IntParam, TextDefault("10"));
    assert AllDigits("10") && DigitsValue("10") == 10 by {
      assert "10"[..1] == "1";
      assert "1"[..0] == [];
    }
    ParseDigits("10");
    ModEmptyDefault(p);
    ModIntInvalid(p, u);
  }

  /**
   * Whitespace typed around a line changes nothing: both loops see the line without it,
   * and `int()` parses it the same way.
   */
  lemma TypedPadding(p: Param, pre: String, x: String, post: String)
    requires forall i :: 0 <= i < |pre| ==> IsSpace(pre[i])
    requires forall i :: 0 <= i < |post| ==> IsSpace(post[i])
    requires x != [] && Strip(x) == x
    ensures SelectParam(p, pre + x + post) == SelectLine(p, x)
    ensures ModParam(p, pre + x + post) == ModLine(p, x)
    ensures ParseInt(pre + x + post) == ParseInt(x)
  {
    StripPadded(pre, x, post);
    ParseIntStripped(pre + x + post);
  }

  /** The step of the modification loop for each parameter and its typed line. */
  function ModSteps(params: seq<Param>, inputs: seq<String>): (r: seq<Result<Value, ParamError>>)
    requires |inputs| == |params|
    ensures |r| == |params| && forall i :: 0 <= i < |params| ==> r[i] == ModParam(params[i], inputs[i])
  {
    seq(|params|, i requires 0 <= i < |params| && i < |inputs| => ModParam(params[i], inputs[i]))
  }

  /** The modification parameter loop: one value per parameter, in order, or the first error. */
  function ModAll(params: seq<Param>, inputs: seq<String>): Result<seq<Value>, ParamError>
    requires |inputs| == |params|
  {
    Collect(ModSteps(params, inputs))
  }

  /**
   * A successful modification loop binds exactly one value per parameter, in order; it
   * fails exactly when some parameter does, with the first parameter's error.
   */
  lemma ModAllResult(params: seq<Param>, inputs: seq<String>)
    requires |inputs| == |params|
    ensures ModAll(params, inputs).Ok? <==> forall i :: 0 <= i < |params| ==> ModParam(params[i], inputs[i]).Ok?
    ensures ModAll(params, inputs).Ok? ==>
      |ModAll(params, inputs).value| == |params| &&
      forall i :: 0 <= i < |params| ==> ModAll(params, inputs).value[i] == ModParam(params[i], inputs[i]).value
    ensures ModAll(params, inputs).Err? ==>
      exists k :: && 0 <= k < |params|
                  && ModParam(params[k], inputs[k]) == Err(ModAll(params, inputs).error)
                  && forall i :: 0 <= i < k ==> ModParam(params[i], inputs[i]).Ok?
  {
    CollectResult(ModSteps(params, inputs));
  }

  /** The modification parameter loop: every parameter is read and transformed before any statement runs. */
  method BindModification(params: seq<Param>, inputs: seq<String>) returns (r: Result<seq<Value>, ParamError>)
    requires |inputs| == |params|
    ensures r == ModAll(params, inputs)
  {
    ghost var steps := ModSteps(params, inputs);
    var values: seq<Value> := [];
    var i := 0;
    while i < |params|
      invariant 0 <= i <= |params|
      invariant Collect(steps[..i]) == Ok(values)
    {
      var v := ModParam(params[i], inputs[i]);
      CollectNext(steps, i, values);
      if v.Err? {
        return Err(v.error);
      }
      values := values + [v.value];
      i := i + 1;
    }
    assert steps[..i] == steps;
    return Ok(values);
  }

  // ---------------------------------------------------------------------------
  // Confirmation and statements

  /** `input(...).strip().lower() == 'yes'`: the answer that lets a modification proceed. */
  predicate Confirmed(answer: String)
  {
    Lower(Strip(answer)) == "yes"
  }

  /** "yes" in any letter case, with any surrounding whitespace, confirms. */
  lemma ConfirmedAnyCase(pre: String, word: String, post: String)
    requires forall i :: 0 <= i < |pre| ==> IsSpace(pre[i])
    requires forall i :: 0 <= i < |post| ==> IsSpace(post[i])
    requires Lower(word) == "yes"
    ensures Confirmed(pre + word + post)
  {
    assert |word| == 3;
    assert !IsSpace(word[0]) by {
      assert LowerChar(word[0]) == 'y';
    }
    assert !IsSpace(word[2]) by {
      assert LowerChar(word[2]) == 's';
    }
    StripFixed(word);
    StripPadded(pre, word, post);
  }

  /** Only a three-letter answer can confirm: "y", "ye", "yess" or "no" never do. */
  lemma ConfirmedOnlyYes(answer: String)
    requires Confirmed(answer)
    ensures |Strip(answer)| == 3
    ensures forall i :: 0 <= i < 3 ==> LowerChar(Strip(answer)[i]) == "yes"[i]
  {
  }

  /** `[s.strip() for s in query.split(';') if s.strip()]`. */
  function SplitStatements(query: String): (r: seq<String>)
    ensures forall i :: 0 <= i < |r| ==> r[i] != [] && Strip(r[i]) == r[i] && ';' !in r[i]
  {
    var parts := Split(query, ';');
    NonBlankAvoids(parts, ';');
    NonBlank(parts)
  }

  /**
   * Round trip: statements that are non-empty, stripped and free of `;`, joined with
   * `;`, split back into the same statements in the same order.
   */
  lemma SplitStatementsJoin(stmts: seq<String>)
    requires forall i :: 0 <= i < |stmts| ==> stmts[i] != [] && Strip(stmts[i]) == stmts[i] && ';' !in stmts[i]
    ensures SplitStatements(Join(stmts, ";")) == stmts
  {
    var parts := Split(Join(stmts, ";"), ';');
    if stmts == [] {
      assert parts == [[]];
      assert Strip([]) == [];
      assert NonBlank(parts) == NonBlank([]);
    } else {
      SplitJoin(stmts, ';');
      assert parts == stmts;
      NonBlankKeeps(stmts);
    }
    assert SplitStatements(Join(stmts, ";")) == NonBlank(parts);
  }

  /** A query without `;` is one statement, unless it is blank. */
  lemma SplitSingleStatement(query: String)
    requires ';' !in query
    ensures SplitStatements(query) == if Strip(query) == [] then [] else [Strip(query)]
  {
    SplitNoSep(query, ';');
    assert Split(query, ';')[1..] == [];
  }

  /** How a modification request ends. */
  datatype ModOutcome =
    | Cancelled
    | Refused(error: ParamError)
    | Execute(values: seq<Value>, statements: seq<String>)

  /**
   * The modification path of `execute_query` up to its statements: the confirmation,
   * then every parameter, then the statements of the stripped query text.
   */
  function Modification(answer: String, query: String, params: seq<Param>, inputs: seq<String>): ModOutcome
    requires |inputs| == |params|
  {
    if !Confirmed(answer) then Cancelled
    else
      match ModAll(params, inputs)
      case Err(e) => Refused(e)
      case Ok(vs) => Execute(vs, SplitStatements(Strip(query)))
  }

  /**
   * Statements run only after "yes" and only when every parameter was accepted; a
   * required parameter left empty without a default stops the request before any statement.
   */
  lemma ModificationGate(answer: String, query: String, params: seq<Param>, inputs: seq<String>)
    requires |inputs| == |params|
    ensures Modification(answer, query, params, inputs).Execute? <==>
      Confirmed(answer) && forall i :: 0 <= i < |params| ==> ModParam(params[i], inputs[i]).Ok?
    ensures Modification(answer, query, params, inputs).Execute? ==>
      |Modification(answer, query, params, inputs).values| == |params|
    ensures forall k ::
      (&& 0 <= k < |params| && Confirmed(answer) && Strip(inputs[k]) == []
       && !Truthy(params[k].default) && (params[k].kind.IntParam? || params[k].kind.StrParam?))
      ==> Modification(answer, query, params, inputs).Refused?
  {
    ModAllResult(params, inputs);
    forall k | 0 <= k < |params| && Confirmed(answer) && Strip(inputs[k]) == [] &&
      !Truthy(params[k].default) && (params[k].kind.IntParam? || params[k].kind.StrParam?)
      ensures Modification(answer, query, params, inputs).Refused?
    {
      ModRequiredEmpty(params[k]);
    }
  }
}
