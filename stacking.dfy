/**
 * `stack_variables` and `unstack_variables`: the variables of a dataset
 * stacked along a new dimension, with every variable attribute kept on the
 * new coordinate as a position-aligned list under the attribute's name
 * prefixed with "_", and the reverse operation that restores them.
 */
module Stacking {
  import opened Wrappers
  import opened TimeSeries
  import opened Dicts

  /** A data variable: its name, its attributes and its values. */
  datatype Variable = Variable(name: string, attrs: Dict, data: seq<Value>)

  /** A dataset: its data variables in order and its own attributes. */
  datatype Dataset = Dataset(vars: seq<Variable>, attrs: Dict)

  /** A coordinate along the stacked dimension: its name, labels and attributes. */
  datatype Coord = Coord(name: string, labels: seq<string>, attrs: Dict)

  /**
   * A data array whose first dimension is the stacked one: `rows[p]` is the
   * slice at position p of that dimension, and its coordinates run along it.
   */
  datatype DataArray = DataArray(name: string, coords: seq<Coord>, attrs: Dict, rows: seq<seq<Value>>)

  predicate Distinct(s: seq<string>) {
    forall i, j :: 0 <= i < j < |s| ==> s[i] != s[j]
  }

  function Names(vars: seq<Variable>): (ns: seq<string>)
    ensures |ns| == |vars| && forall i :: 0 <= i < |vars| ==> ns[i] == vars[i].name
  {
    seq(|vars|, i requires 0 <= i < |vars| => vars[i].name)
  }

  function Rows(vars: seq<Variable>): (rs: seq<seq<Value>>)
    ensures |rs| == |vars| && forall i :: 0 <= i < |vars| ==> rs[i] == vars[i].data
  {
    seq(|vars|, i requires 0 <= i < |vars| => vars[i].data)
  }

  /** What holds of any dataset: its keys (variable names, attribute names) are distinct. */
  predicate ValidDataset(ds: Dataset) {
    && Distinct(Names(ds.vars))
    && DistinctKeys(ds.attrs)
    && forall i :: 0 <= i < |ds.vars| ==> DistinctKeys(ds.vars[i].attrs)
  }

  predicate IsPrefixed(k: string) {
    |k| > 0 && k[0] == '_'
  }

  function KeysOf(d: Dict): (ks: seq<string>)
    ensures |ks| == |d| && forall i :: 0 <= i < |d| ==> ks[i] == d[i].0
  {
    seq(|d|, i requires 0 <= i < |d| => d[i].0)
  }

  // ---------------------------------------------------------------------
  // stack_variables

  /**
   * One assignment `attrs.setdefault("_" + name, [None] * nvar)[i] = v`.
   * Every list met here has length `nvar` (GatheredLists), so the fallback
   * branches are never taken for gathered dictionaries.
   */
  function Place(acc: Dict, i: nat, name: string, v: Attr, nvar: nat): Dict {
    var lst := match Get(acc, "_" + name)
      case Some(AList(l)) => l
      case _ => seq(nvar, _ => ANone);
    Put(acc, "_" + name, AList(if i < |lst| then lst[i := v] else lst))
  }

  /** Where the list met has one entry per variable, `Place` sets entry `i` of it. */
  lemma PlaceFound(acc: Dict, i: nat, name: string, v: Attr, nvar: nat)
    requires i < nvar
    requires Get(acc, "_" + name).None? || (Get(acc, "_" + name).value.AList? && |Get(acc, "_" + name).value.items| == nvar)
    ensures Place(acc, i, name, v, nvar) ==
      Put(acc, "_" + name, AList((if Get(acc, "_" + name).Some? then Get(acc, "_" + name).value.items else seq(nvar, _ => ANone))[i := v]))
  { }

  /** The gathered dictionary once the variables before `i` are processed. */
  function AfterVars(vars: seq<Variable>, i: nat): Dict
    requires i <= |vars|
    decreases i, 0
  {
    if i == 0 then [] else AfterAttrs(vars, i - 1, |vars[i - 1].attrs|)
  }

  /** ... and the first `j` attributes of variable `i`. */
  function AfterAttrs(vars: seq<Variable>, i: nat, j: nat): Dict
    requires i < |vars| && j <= |vars[i].attrs|
    decreases i, 1, j
  {
    if j == 0 then AfterVars(vars, i)
    else Place(AfterAttrs(vars, i, j - 1), i, vars[i].attrs[j - 1].0, vars[i].attrs[j - 1].1, |vars|)
  }

  /** The attribute dictionary of the stacked coordinate. */
  function StackedAttrs(vars: seq<Variable>): Dict {
    Put(AfterVars(vars, |vars|), "is_variables", ABool(true))
  }

  /** `xr.concat` of no arrays: a dataset without data variables cannot be stacked. */
  const NothingToConcat := ValueError("must supply at least one object to concatenate")

  /** What `stack_variables(ds, dim=dim)` returns, or raises. */
  function Stacked(ds: Dataset, dim: string): (r: Result<DataArray>)
    ensures r.Failure? <==> ds.vars == []
    ensures r.Failure? ==> r == Failure(NothingToConcat)
    ensures r.Success? ==> var da := r.value;
      && da.name == "multivariate" && |da.coords| == 1 && da.coords[0].name == dim
      && da.coords[0].labels == Names(ds.vars) && da.rows == Rows(ds.vars)
      && Get(da.coords[0].attrs, "is_variables") == Some(ABool(true))
      && Get(da.attrs, "units") == Some(AStr("")) && forall k :: k != "units" ==> Get(da.attrs, k) == Get(ds.attrs, k)
  {
    if ds.vars == [] then Failure(NothingToConcat)
    else Success(DataArray("multivariate", [Coord(dim, Names(ds.vars), StackedAttrs(ds.vars))],
                           Put(ds.attrs, "units", AStr("")), Rows(ds.vars)))
  }

  /** Some variable before `i` has attribute `a`. */
  predicate SeenBefore(vars: seq<Variable>, a: string, i: nat)
    requires i <= |vars|
  {
    exists p :: 0 <= p < i && Get(vars[p].attrs, a).Some?
  }

  /** The list under "_" + a after the variables before `i`. */
  function ColumnBefore(vars: seq<Variable>, a: string, i: nat): (c: seq<Attr>)
    ensures |c| == |vars|
    ensures forall p :: 0 <= p < |vars| ==> c[p] == if p < i then GetOrNone(vars[p].attrs, a) else ANone
  {
    seq(|vars|, p requires 0 <= p < |vars| => if p < i then GetOrNone(vars[p].attrs, a) else ANone)
  }

  /** The list under "_" + a after the variables before `i` and `j` attributes of variable `i`. */
  function ColumnAt(vars: seq<Variable>, a: string, i: nat, j: nat): (c: seq<Attr>)
    requires i < |vars| && j <= |vars[i].attrs|
    ensures |c| == |vars|
    ensures forall p :: 0 <= p < |vars| ==>
      c[p] == if p < i || (p == i && a in KeysOf(vars[i].attrs[..j])) then GetOrNone(vars[p].attrs, a) else ANone
  {
    seq(|vars|, p requires 0 <= p < |vars| =>
      if p < i || (p == i && a in KeysOf(vars[i].attrs[..j])) then GetOrNone(vars[p].attrs, a) else ANone)
  }

  predicate KeysDistinct(vars: seq<Variable>) {
    forall i :: 0 <= i < |vars| ==> DistinctKeys(vars[i].attrs)
  }

  /** A key is present once some variable met so far has its attribute. */
  lemma KeyPresent(d: Dict, a: string)
    ensures a in KeysOf(d) <==> Get(d, a).Some?
  {
    GetFinds(d, a);
    if Get(d, a).Some? {
      var i :| 0 <= i < |d| && d[i].0 == a;
      assert KeysOf(d)[i] == a;
    }
  }

  /** Some variable before `i`, or one of the first `j` attributes of variable `i`, is `a`. */
  predicate SeenAt(vars: seq<Variable>, a: string, i: nat, j: nat)
    requires i < |vars| && j <= |vars[i].attrs|
  {
    SeenBefore(vars, a, i) || a in KeysOf(vars[i].attrs[..j])
  }

  /**
   * `acc` holds, under "_" + a, the list gathered from the variables before
   * `i` exactly when one of them has `a`, and no other key.
   */
  ghost predicate HoldsColumnsBefore(acc: Dict, vars: seq<Variable>, i: nat)
    requires i <= |vars|
  {
    && DistinctKeys(acc)
    && forall k {:trigger Get(acc, k)} :: Get(acc, k) ==
         (if IsPrefixed(k) && SeenBefore(vars, k[1..], i) then Some(AList(ColumnBefore(vars, k[1..], i))) else None)
  }

  /** The same once the first `j` attributes of variable `i` are gathered too. */
  ghost predicate HoldsColumnsAt(acc: Dict, vars: seq<Variable>, i: nat, j: nat)
    requires i < |vars| && j <= |vars[i].attrs|
  {
    && DistinctKeys(acc)
    && forall k {:trigger Get(acc, k)} :: Get(acc, k) ==
         (if IsPrefixed(k) && SeenAt(vars, k[1..], i, j) then Some(AList(ColumnAt(vars, k[1..], i, j))) else None)
  }

  lemma BeforeIsAtStart(acc: Dict, vars: seq<Variable>, i: nat)
    requires i < |vars| && HoldsColumnsBefore(acc, vars, i)
    ensures HoldsColumnsAt(acc, vars, i, 0)
  {
    forall k | IsPrefixed(k) ensures ColumnAt(vars, k[1..], i, 0) == ColumnBefore(vars, k[1..], i) { }
  }

  lemma AtEndIsBefore(acc: Dict, vars: seq<Variable>, i: nat)
    requires KeysDistinct(vars) && i < |vars| && HoldsColumnsAt(acc, vars, i, |vars[i].attrs|)
    ensures HoldsColumnsBefore(acc, vars, i + 1)
  {
    var n := |vars[i].attrs|;
    assert vars[i].attrs[..n] == vars[i].attrs;
    forall k ensures Get(acc, k) ==
      (if IsPrefixed(k) && SeenBefore(vars, k[1..], i + 1) then Some(AList(ColumnBefore(vars, k[1..], i + 1))) else None)
    {
      if IsPrefixed(k) {
        var a := k[1..];
        KeyPresent(vars[i].attrs, a);
        assert SeenBefore(vars, a, i + 1) <==> SeenAt(vars, a, i, n);
        assert ColumnBefore(vars, a, i + 1) == ColumnAt(vars, a, i, n);
      }
    }
  }

  /** The list met at a gathering step is absent or has one entry per variable. */
  lemma ListMet(acc: Dict, vars: seq<Variable>, i: nat, j: nat, name: string)
    requires i < |vars| && j <= |vars[i].attrs| && HoldsColumnsAt(acc, vars, i, j)
    ensures Get(acc, "_" + name).None? || (Get(acc, "_" + name).value.AList? && |Get(acc, "_" + name).value.items| == |vars|)
  {
    assert ("_" + name)[1..] == name;
  }

  /** Placing the next attribute of variable `i` into its list. */
  lemma GatheredStep(vars: seq<Variable>, i: nat, j: nat)
    requires KeysDistinct(vars) && i < |vars| && 0 < j <= |vars[i].attrs|
    requires HoldsColumnsAt(AfterAttrs(vars, i, j - 1), vars, i, j - 1)
    ensures HoldsColumnsAt(AfterAttrs(vars, i, j), vars, i, j)
  {
    var acc := AfterAttrs(vars, i, j - 1);
    var (name, v) := vars[i].attrs[j - 1];
    var key := "_" + name;
    assert key[1..] == name;
    var prev := ColumnAt(vars, name, i, j - 1);
    NextColumn(vars, i, j);
    assert Get(acc, key) == if SeenAt(vars, name, i, j - 1) then Some(AList(prev)) else None;
    var next := Put(acc, key, AList(prev[i := v]));
    assert AfterAttrs(vars, i, j) == next;
    forall k ensures Get(next, k) ==
      (if IsPrefixed(k) && SeenAt(vars, k[1..], i, j) then Some(AList(ColumnAt(vars, k[1..], i, j))) else None)
    {
      if k != key && IsPrefixed(k) {
        assert k == "_" + k[1..];
        OtherColumn(vars, i, j, k[1..]);
      }
    }
  }

  /** The list of the attribute placed: the previous column with entry `i` set. */
  lemma NextColumn(vars: seq<Variable>, i: nat, j: nat)
    requires KeysDistinct(vars) && i < |vars| && 0 < j <= |vars[i].attrs|
    ensures SeenAt(vars, vars[i].attrs[j - 1].0, i, j)
    ensures ColumnAt(vars, vars[i].attrs[j - 1].0, i, j) == ColumnAt(vars, vars[i].attrs[j - 1].0, i, j - 1)[i := vars[i].attrs[j - 1].1]
    ensures !SeenAt(vars, vars[i].attrs[j - 1].0, i, j - 1) ==> ColumnAt(vars, vars[i].attrs[j - 1].0, i, j - 1) == seq(|vars|, _ => ANone)
  {
    var (name, v) := vars[i].attrs[j - 1];
    var prev := ColumnAt(vars, name, i, j - 1);
    assert KeysOf(vars[i].attrs[..j]) == KeysOf(vars[i].attrs[..j - 1]) + [name];
    assert name !in KeysOf(vars[i].attrs[..j - 1]) by {
      assert DistinctKeys(vars[i].attrs);
    }
    GetAt(vars[i].attrs, j - 1);
    if !SeenAt(vars, name, i, j - 1) {
      forall p | 0 <= p < |vars| ensures prev[p] == ANone {
        if p < i { assert Get(vars[p].attrs, name).None?; }
      }
    }
  }

  /** Every other attribute's list is left as it was. */
  lemma OtherColumn(vars: seq<Variable>, i: nat, j: nat, a: string)
    requires i < |vars| && 0 < j <= |vars[i].attrs| && a != vars[i].attrs[j - 1].0
    ensures SeenAt(vars, a, i, j) == SeenAt(vars, a, i, j - 1)
    ensures ColumnAt(vars, a, i, j) == ColumnAt(vars, a, i, j - 1)
  {
    assert KeysOf(vars[i].attrs[..j]) == KeysOf(vars[i].attrs[..j - 1]) + [vars[i].attrs[j - 1].0];
  }

  /** After the variables before `i`, the gathered dictionary holds their columns. */
  lemma {:induction false} GatheredBefore(vars: seq<Variable>, i: nat)
    requires KeysDistinct(vars) && i <= |vars|
    ensures HoldsColumnsBefore(AfterVars(vars, i), vars, i)
    decreases i, 0
  {
    if i > 0 {
      GatheredAt(vars, i - 1, |vars[i - 1].attrs|);
      AtEndIsBefore(AfterVars(vars, i), vars, i - 1);
    }
  }

  /** ... and after the first `j` attributes of variable `i`. */
  lemma {:induction false} GatheredAt(vars: seq<Variable>, i: nat, j: nat)
    requires KeysDistinct(vars) && i < |vars| && j <= |vars[i].attrs|
    ensures HoldsColumnsAt(AfterAttrs(vars, i, j), vars, i, j)
    decreases i, 1, j
  {
    if j == 0 {
      GatheredBefore(vars, i);
      BeforeIsAtStart(AfterVars(vars, i), vars, i);
    } else {
      GatheredAt(vars, i, j - 1);
      GatheredStep(vars, i, j);
    }
  }

  /**
   * The stacked coordinate's attributes: `is_variables` is True, and for
   * every attribute name `a` of any variable, "_" + a holds a list with one
   * entry per variable — that variable's value of `a`, or None where it has
   * none. No other key is present.
   */
  lemma StackedAttrLists(vars: seq<Variable>)
    requires KeysDistinct(vars)
    ensures DistinctKeys(StackedAttrs(vars))
    ensures forall k {:trigger Get(StackedAttrs(vars), k)} ::
      Get(StackedAttrs(vars), k) ==
        if k == "is_variables" then Some(ABool(true))
        else if IsPrefixed(k) && exists p :: 0 <= p < |vars| && Get(vars[p].attrs, k[1..]).Some?
        then Some(AList(seq(|vars|, p requires 0 <= p < |vars| => GetOrNone(vars[p].attrs, k[1..]))))
        else None
  {
    GatheredBefore(vars, |vars|);
    forall k | IsPrefixed(k)
      ensures ColumnBefore(vars, k[1..], |vars|) == seq(|vars|, p requires 0 <= p < |vars| => GetOrNone(vars[p].attrs, k[1..]))
    { }
  }

  /**
   * `stack_variables`: the attribute lists are gathered by the source's
   * nested loops; the array is named "multivariate", carries the dataset's
   * attributes with `units` set to "", and has one row per variable.
   */
  method StackVariables(ds: Dataset, dim: string) returns (r: Result<DataArray>)
    requires ValidDataset(ds)
    ensures r == Stacked(ds, dim)
  {
    var vars := ds.vars;
    var attrs: Dict := [];
    var i := 0;
    while i < |vars|
      invariant 0 <= i <= |vars|
      invariant attrs == AfterVars(vars, i)
    {
      attrs := GatherVariable(vars, i, attrs);
      i := i + 1;
    }
    attrs := Put(attrs, "is_variables", ABool(true));
    var crd := Coord(dim, Names(vars), attrs);
    if |vars| == 0 {
      return Failure(NothingToConcat);
    }
    r := Success(DataArray("multivariate", [crd], Put(ds.attrs, "units", AStr("")), Rows(vars)));
  }

  /** The inner loop of `stack_variables`: the attributes of variable `i`, in order. */
  method GatherVariable(vars: seq<Variable>, i: nat, acc: Dict) returns (attrs: Dict)
    requires KeysDistinct(vars) && i < |vars| && acc == AfterVars(vars, i)
    ensures attrs == AfterAttrs(vars, i, |vars[i].attrs|)
  {
    var nvar := |vars|;
    attrs := acc;
    var j := 0;
    while j < |vars[i].attrs|
      invariant 0 <= j <= |vars[i].attrs|
      invariant attrs == AfterAttrs(vars, i, j)
    {
      var (name, v) := vars[i].attrs[j];
      var key := "_" + name;
      var cur := Get(attrs, key);
      assert cur.None? || (cur.value.AList? && |cur.value.items| == nvar) by {
        GatheredAt(vars, i, j);
        ListMet(attrs, vars, i, j, name);
      }
      // `setdefault`: the list already gathered, or a new one of Nones.
      var lst := if cur.Some? then cur.value.items else seq(nvar, _ => ANone);
      PlaceFound(attrs, i, name, v, nvar);
      assert AfterAttrs(vars, i, j + 1) == Place(attrs, i, name, v, nvar);
      attrs := Put(attrs, key, AList(lst[i := v]));
      j := j + 1;
    }
  }

  // ---------------------------------------------------------------------
  // unstack_variables

  /** The first coordinate with a truthy `is_variables` attribute. */
  function FlaggedCoord(coords: seq<Coord>): (r: Option<string>)
    ensures r.Some? ==> exists c :: c in coords && c.name == r.value && Truthy(GetOrNone(c.attrs, "is_variables"))
    ensures r.Some? ==> exists i :: 0 <= i < |coords| && FirstFlagged(coords, i) && coords[i].name == r.value
    ensures r.None? ==> forall c :: c in coords ==> !Truthy(GetOrNone(c.attrs, "is_variables"))
  {
    if |coords| == 0 then None
    else if Truthy(GetOrNone(coords[0].attrs, "is_variables")) then
      assert FirstFlagged(coords, 0);
      Some(coords[0].name)
    else
      var r := FlaggedCoord(coords[1..]);
      if r.Some? then
        var i :| 0 <= i < |coords| - 1 && FirstFlagged(coords[1..], i) && coords[1..][i].name == r.value;
        assert FirstFlagged(coords, i + 1) by {
          forall j | 0 <= j < i + 1 ensures !Truthy(GetOrNone(coords[j].attrs, "is_variables")) {
            if j > 0 {
              assert coords[j] == coords[1..][j - 1];
            }
          }
        }
        r
      else r
  }

  /** Coordinate `i` is flagged and no coordinate before it is (the `break` of the search loop). */
  predicate FirstFlagged(coords: seq<Coord>, i: int)
    requires 0 <= i < |coords|
  {
    Truthy(GetOrNone(coords[i].attrs, "is_variables")) &&
    forall j :: 0 <= j < i ==> !Truthy(GetOrNone(coords[j].attrs, "is_variables"))
  }

  /** The stacked dimension: the one given, or the flagged coordinate's; ValueError if none. */
  function FindDim(da: DataArray, dim: Option<string>): (r: Result<string>)
    ensures dim.Some? ==> r == Success(dim.value)
    ensures dim.None? && r.Success? ==> exists c :: c in da.coords && c.name == r.value && Truthy(GetOrNone(c.attrs, "is_variables"))
    ensures dim.None? && r.Success? ==> exists i :: 0 <= i < |da.coords| && FirstFlagged(da.coords, i) && da.coords[i].name == r.value
    ensures dim.None? && r.Failure? ==> r.error.ValueError? && forall c :: c in da.coords ==> !Truthy(GetOrNone(c.attrs, "is_variables"))
  {
    match dim
    case Some(d) => Success(d)
    case None =>
      match FlaggedCoord(da.coords)
      case Some(d) => Success(d)
      case None => Failure(ValueError("No variable coordinate found, were attributes removed?"))
  }

  /** The coordinate of the given name (`da[name]`), if any. */
  function CoordNamed(coords: seq<Coord>, name: string): (r: Option<Coord>)
    ensures r.Some? ==> r.value in coords && r.value.name == name
    ensures r.None? ==> forall c :: c in coords ==> c.name != name
  {
    if |coords| == 0 then None
    else if coords[0].name == name then Some(coords[0])
    else CoordNamed(coords[1..], name)
  }

  /** The position of the variable of the given name (`ds[name]`), if any. */
  function IndexOf(vars: seq<Variable>, name: string): (r: Option<nat>)
    ensures r.Some? ==> r.value < |vars| && vars[r.value].name == name
    ensures r.None? ==> forall i :: 0 <= i < |vars| ==> vars[i].name != name
  {
    if |vars| == 0 then None
    else if vars[0].name == name then Some(0)
    else match IndexOf(vars[1..], name)
      case Some(i) => Some(i + 1)
      case None => None
  }

  /** `ds[label].attrs[a] = v`, KeyError when no variable has that name. */
  function SetAttr(vars: seq<Variable>, target: string, a: string, v: Attr): (r: Result<seq<Variable>>)
    ensures r.Failure? ==> r == Failure(KeyError(target))
    ensures r.Success? ==> |r.value| == |vars|
  {
    match IndexOf(vars, target)
    case None => Failure(KeyError(target))
    case Some(i) => Success(vars[i := vars[i].(attrs := Put(vars[i].attrs, a, v))])
  }

  /**
   * `ds[target].attrs[a] = v` fails exactly when no variable has that name;
   * otherwise it sets `a` on that variable and changes nothing else.
   */
  lemma SetAttrWrites(vars: seq<Variable>, target: string, a: string, v: Attr)
    ensures var r := SetAttr(vars, target, a, v);
      && (r.Failure? <==> forall i :: 0 <= i < |vars| ==> vars[i].name != target)
      && (r.Success? ==> exists i ::
            && 0 <= i < |vars| && vars[i].name == target
            && r.value[i].name == target && r.value[i].data == vars[i].data && Get(r.value[i].attrs, a) == Some(v)
            && (forall k :: k != a ==> Get(r.value[i].attrs, k) == Get(vars[i].attrs, k))
            && (forall j :: 0 <= j < |vars| && j != i ==> r.value[j] == vars[j]))
  {
  }

  /** How many (attribute, label) pairs `zip` yields for the entry `e`. */
  function ZipLength(e: (string, Attr), labels: seq<string>): nat {
    if !IsPrefixed(e.0) then 0
    else match Items(e.1)
      case Success(items) => if |items| < |labels| then |items| else |labels|
      case Failure(_) => 0
  }

  /** The variables once the entries of `lists` before `q` are restored. */
  function AfterKeys(vars: seq<Variable>, lists: Dict, labels: seq<string>, q: nat): Result<seq<Variable>>
    requires q <= |lists|
    decreases q, 0
  {
    if q == 0 then Success(vars)
    else if !IsPrefixed(lists[q - 1].0) then AfterKeys(vars, lists, labels, q - 1)
    else if Items(lists[q - 1].1).Failure? then
      match AfterKeys(vars, lists, labels, q - 1)
      case Failure(e) => Failure(e)
      case Success(_) => Failure(TypeError)
    else AfterZip(vars, lists, labels, q - 1, ZipLength(lists[q - 1], labels))
  }

  /** ... and the first `p` pairs that `zip` yields for entry `q`. */
  function AfterZip(vars: seq<Variable>, lists: Dict, labels: seq<string>, q: nat, p: nat): Result<seq<Variable>>
    requires q < |lists| && p <= ZipLength(lists[q], labels)
    decreases q, 1, p
  {
    if p == 0 then AfterKeys(vars, lists, labels, q)
    else
      match AfterZip(vars, lists, labels, q, p - 1)
      case Failure(e) => Failure(e)
      case Success(vs) =>
        var item := Items(lists[q].1).value[p - 1];
        if item == ANone then Success(vs)
        else SetAttr(vs, labels[p - 1], lists[q].0[1..], item)
  }

  /** Where the prefixed lists are read from. */
  datatype ListsFrom =
    | VariablesCoord  // the coordinate named "variables" (`da.variables`), as written
    | StackedCoord    // the coordinate of the stacked dimension found above

  /**
   * Every coordinate of a data array runs along the stacked dimension and
   * its labels are distinct (they become the dataset's variable names).
   */
  predicate ValidArray(da: DataArray) {
    forall c :: c in da.coords ==> |c.labels| == |da.rows| && Distinct(c.labels)
  }

  /** The dataset of one variable per label, each a copy of the array's attributes. */
  function Selected(da: DataArray, c: Coord): (vars: seq<Variable>)
    requires |c.labels| == |da.rows|
    ensures Names(vars) == c.labels
  {
    var vars := seq(|c.labels|, p requires 0 <= p < |c.labels| => Variable(c.labels[p], da.attrs, da.rows[p]));
    assert Names(vars) == c.labels;
    vars
  }

  /** The dataset `unstack_variables(da, dim)` returns, or the error it raises. */
  function Unstacked(da: DataArray, dim: Option<string>, from: ListsFrom): (r: Result<Dataset>)
    requires ValidArray(da)
    ensures dim.None? && (forall c :: c in da.coords ==> !Truthy(GetOrNone(c.attrs, "is_variables"))) ==>
      r.Failure? && r.error.ValueError?
    ensures r.Success? ==> Get(da.attrs, "units").Some?
    ensures r.Success? ==> forall k {:trigger Get(r.value.attrs, k)} :: k != "units" ==> Get(r.value.attrs, k) == Get(da.attrs, k)
    ensures r.Success? && from == VariablesCoord ==> exists c :: c in da.coords && c.name == "variables"
  {
    var d :- FindDim(da, dim);
    match CoordNamed(da.coords, d)
    case None => Failure(KeyError(d))
    case Some(c) =>
      var vars := Selected(da, c);
      var attrs :- Del(da.attrs, "units");
      var lists :- match from
        case StackedCoord => Success(c)
        case VariablesCoord =>
          match CoordNamed(da.coords, "variables")
          case Some(v) => Success(v)
          case None => Failure(AttributeError("variables"));
      var vs :- AfterKeys(vars, lists.attrs, lists.labels, |lists.attrs|);
      Success(Dataset(vs, attrs))
  }

  /** Once the restoration fails it stays failed. */
  lemma {:induction false} FailureSticks(vars: seq<Variable>, lists: Dict, labels: seq<string>, q: nat, p: nat, m: nat)
    requires q < m <= |lists| && p <= ZipLength(lists[q], labels)
    requires AfterZip(vars, lists, labels, q, p).Failure?
    ensures AfterKeys(vars, lists, labels, m) == AfterZip(vars, lists, labels, q, p)
    decreases m - q, 0, ZipLength(lists[q], labels) - p
  {
    var n := ZipLength(lists[q], labels);
    if p < n {
      FailureSticks(vars, lists, labels, q, p + 1, m);
    } else {
      assert AfterKeys(vars, lists, labels, q + 1) == AfterZip(vars, lists, labels, q, p) by {
        assert (IsPrefixed(lists[q].0) && Items(lists[q].1).Success?) || p == 0;
      }
      if q + 1 < m {
        FailureAfterKeys(vars, lists, labels, q + 1, m);
      }
    }
  }

  lemma {:induction false} FailureAfterKeys(vars: seq<Variable>, lists: Dict, labels: seq<string>, q: nat, m: nat)
    requires q <= m <= |lists|
    requires AfterKeys(vars, lists, labels, q).Failure?
    ensures AfterKeys(vars, lists, labels, m) == AfterKeys(vars, lists, labels, q)
    decreases m - q, 1
  {
    if q < m {
      if !IsPrefixed(lists[q].0) || Items(lists[q].1).Failure? {
        FailureAfterKeys(vars, lists, labels, q + 1, m);
      } else {
        FailureSticks(vars, lists, labels, q, 0, m);
      }
    }
  }

  /**
   * The inner loop of the restoration: the pairs of entry `q`'s list and
   * the labels, each non-None item written onto the variable of its label.
   */
  method RestoreList(ghost start: seq<Variable>, vars: seq<Variable>, lists: Dict, labels: seq<string>, q: nat, items: seq<Attr>)
    returns (r: Result<seq<Variable>>)
    requires q < |lists| && IsPrefixed(lists[q].0) && Items(lists[q].1) == Success(items)
    requires AfterKeys(start, lists, labels, q) == Success(vars)
    ensures r == AfterZip(start, lists, labels, q, ZipLength(lists[q], labels))
  {
    var name := lists[q].0;
    var n := if |items| < |labels| then |items| else |labels|;
    var vs := vars;
    var p := 0;
    assert n == ZipLength(lists[q], labels);
    while p < n
      invariant 0 <= p <= n
      invariant AfterZip(start, lists, labels, q, p) == Success(vs)
    {
      assert AfterZip(start, lists, labels, q, p + 1) ==
        if items[p] == ANone then Success(vs) else SetAttr(vs, labels[p], name[1..], items[p]);
      if items[p] != ANone {
        var idx := IndexOf(vs, labels[p]);
        if idx.None? {
          FailureSticksInList(start, lists, labels, q, p + 1);
          return Failure(KeyError(labels[p]));
        }
        var i := idx.value;
        vs := vs[i := vs[i].(attrs := Put(vs[i].attrs, name[1..], items[p]))];
      }
      p := p + 1;
    }
    r := Success(vs);
  }

  /** A failure inside one list's pairs is the list's outcome. */
  lemma {:induction false} FailureSticksInList(vars: seq<Variable>, lists: Dict, labels: seq<string>, q: nat, p: nat)
    requires q < |lists| && p <= ZipLength(lists[q], labels)
    requires AfterZip(vars, lists, labels, q, p).Failure?
    ensures AfterZip(vars, lists, labels, q, ZipLength(lists[q], labels)) == AfterZip(vars, lists, labels, q, p)
    decreases ZipLength(lists[q], labels) - p
  {
    if p < ZipLength(lists[q], labels) {
      FailureSticksInList(vars, lists, labels, q, p + 1);
    }
  }

  /** The outer loop of the restoration, over the entries of `lists` in order. */
  method RestoreAttributes(vars: seq<Variable>, lists: Dict, labels: seq<string>) returns (r: Result<seq<Variable>>)
    ensures r == AfterKeys(vars, lists, labels, |lists|)
  {
    var vs := vars;
    var q := 0;
    while q < |lists|
      invariant 0 <= q <= |lists|
      invariant AfterKeys(vars, lists, labels, q) == Success(vs)
    {
      var (name, attrList) := lists[q];
      if IsPrefixed(name) {
        var items := Items(attrList);
        if items.Failure? {
          FailureAfterKeys(vars, lists, labels, q + 1, |lists|);
          return Failure(TypeError);
        }
        var res := RestoreList(vars, vs, lists, labels, q, items.value);
        if res.Failure? {
          FailureAfterKeys(vars, lists, labels, q + 1, |lists|);
          return res;
        }
        vs := res.value;
      }
      q := q + 1;
    }
    r := Success(vs);
  }

  /**
   * `unstack_variables`: one variable per label of the stacked dimension,
   * the array's attributes without `units` on the dataset, and each
   * "_"-prefixed list of `from` written back position by position onto the
   * variable named by the label at that position, skipping None.
   */
  method UnstackVariables(da: DataArray, dim: Option<string>, from: ListsFrom) returns (r: Result<Dataset>)
    requires ValidArray(da)
    ensures r == Unstacked(da, dim, from)
  {
    var found := FindDim(da, dim);
    if found.Failure? {
      return Failure(found.error);
    }
    var d := found.value;
    var crd := CoordNamed(da.coords, d);
    if crd.None? {
      return Failure(KeyError(d));
    }
    var c := crd.value;
    var vars := Selected(da, c);
    var attrs := Del(da.attrs, "units");
    if attrs.Failure? {
      return Failure(attrs.error);
    }
    var lists := c;
    if from == VariablesCoord {
      var v := CoordNamed(da.coords, "variables");
      if v.None? {
        return Failure(AttributeError("variables"));
      }
      lists := v.value;
    }
    var restored := RestoreAttributes(vars, lists.attrs, lists.labels);
    if restored.Failure? {
      return Failure(restored.error);
    }
    r := Success(Dataset(restored.value, attrs.value));
  }

  // ---------------------------------------------------------------------
  // What the restoration writes back

  /**
   * The variables are the ones the labels name, position by position:
   * `ds[labels[p]]` is the variable at position p.
   */
  predicate Matching(vars: seq<Variable>, labels: seq<string>) {
    |vars| == |labels| && Distinct(labels) && forall r :: 0 <= r < |vars| ==> vars[r].name == labels[r]
  }

  /** Every "_"-prefixed entry can be iterated over. */
  predicate AllIterable(lists: Dict) {
    forall m :: 0 <= m < |lists| ==> IsPrefixed(lists[m].0) ==> Items(lists[m].1).Success?
  }

  /** The item the lists of `d` write for attribute `a` onto the variable at position `r`, if any. */
  function Written(d: Dict, a: string, r: nat): Option<Attr> {
    match Get(d, "_" + a)
    case None => None
    case Some(x) =>
      match Items(x)
      case Failure(_) => None
      case Success(l) => if r < |l| && l[r] != ANone then Some(l[r]) else None
  }

  /** The value of `a` on variable `r` after restoring, over its original attributes `base`. */
  function RestoredValue(base: Dict, d: Dict, a: string, r: nat): Option<Attr> {
    match Written(d, a, r)
    case Some(x) => Some(x)
    case None => Get(base, a)
  }

  /** `vs` is `vars` with the lists of `d` written back, and nothing else changed. */
  ghost predicate RestoredFrom(vars: seq<Variable>, vs: seq<Variable>, d: Dict) {
    && |vs| == |vars|
    && forall r :: 0 <= r < |vars| ==>
         && vs[r].name == vars[r].name && vs[r].data == vars[r].data
         && forall a {:trigger Get(vs[r].attrs, a)} :: Get(vs[r].attrs, a) == RestoredValue(vars[r].attrs, d, a, r)
  }

  /** Looking a key up in a concatenation: the first part wins. */
  lemma {:induction false} GetAppend(d: Dict, e: Dict, k: string)
    ensures Get(d + e, k) == if Get(d, k).Some? then Get(d, k) else Get(e, k)
  {
    if |d| > 0 {
      assert (d + e)[1..] == d[1..] + e;
      GetAppend(d[1..], e, k);
    } else {
      assert d + e == e;
    }
  }

  /** Restoration facts carry over between dictionaries that write the same items. */
  lemma SameWritten(vars: seq<Variable>, vs: seq<Variable>, d1: Dict, d2: Dict)
    requires RestoredFrom(vars, vs, d1)
    requires forall a, r {:trigger Written(d2, a, r)} :: 0 <= r < |vars| ==> Written(d1, a, r) == Written(d2, a, r)
    ensures RestoredFrom(vars, vs, d2)
  {
    forall r, a | 0 <= r < |vars| ensures Get(vs[r].attrs, a) == RestoredValue(vars[r].attrs, d2, a, r) {
      assert Written(d1, a, r) == Written(d2, a, r);
    }
  }

  /** What an entry appended after `pre` writes, when `pre` does not hold its key. */
  lemma WrittenAppend(pre: Dict, key: string, v: Attr, a: string, r: nat)
    requires Get(pre, key).None?
    ensures Written(pre + [(key, v)], a, r) ==
      if key == "_" + a then Written([(key, v)], a, r) else Written(pre, a, r)
  {
    GetAppend(pre, [(key, v)], "_" + a);
  }

  /** An entry whose key has no "_" prefix writes nothing. */
  lemma SkipUnprefixed(vars: seq<Variable>, vs: seq<Variable>, pre: Dict, e: (string, Attr))
    requires !IsPrefixed(e.0) && Get(pre, e.0).None? && RestoredFrom(vars, vs, pre)
    ensures RestoredFrom(vars, vs, pre + [e])
  {
    forall a, r | 0 <= r < |vars| ensures Written(pre, a, r) == Written(pre + [e], a, r) {
      WrittenAppend(pre, e.0, e.1, a, r);
    }
    SameWritten(vars, vs, pre, pre + [e]);
  }

  /** Before any pair of an entry is zipped, the entry has written nothing. */
  lemma StartList(vars: seq<Variable>, vs: seq<Variable>, pre: Dict, key: string)
    requires Get(pre, key).None? && RestoredFrom(vars, vs, pre)
    ensures RestoredFrom(vars, vs, pre + [(key, AList([]))])
  {
    forall a, r | 0 <= r < |vars| ensures Written(pre, a, r) == Written(pre + [(key, AList([]))], a, r) {
      WrittenAppend(pre, key, AList([]), a, r);
    }
    SameWritten(vars, vs, pre, pre + [(key, AList([]))]);
  }

  /** Once all pairs are zipped, the entry has written its whole list, cut to the labels. */
  lemma EndList(vars: seq<Variable>, vs: seq<Variable>, pre: Dict, e: (string, Attr), items: seq<Attr>, n: nat)
    requires Get(pre, e.0).None? && Items(e.1) == Success(items)
    requires n <= |items| && (n == |items| || n == |vars|)
    requires RestoredFrom(vars, vs, pre + [(e.0, AList(items[..n]))])
    ensures RestoredFrom(vars, vs, pre + [e])
  {
    forall a, r | 0 <= r < |vars| ensures Written(pre + [(e.0, AList(items[..n]))], a, r) == Written(pre + [e], a, r) {
      WrittenAppend(pre, e.0, AList(items[..n]), a, r);
      WrittenAppend(pre, e.0, e.1, a, r);
    }
    SameWritten(vars, vs, pre + [(e.0, AList(items[..n]))], pre + [e]);
  }

  /** One zipped pair: the item at position p is written onto variable p, unless it is None. */
  lemma ZipStep(vars: seq<Variable>, vs: seq<Variable>, labels: seq<string>, pre: Dict, key: string, items: seq<Attr>, p: nat)
    requires Matching(vars, labels) && IsPrefixed(key) && Get(pre, key).None?
    requires p < |items| && p < |labels|
    requires RestoredFrom(vars, vs, pre + [(key, AList(items[..p]))])
    ensures items[p] != ANone ==> SetAttr(vs, labels[p], key[1..], items[p]).Success?
    ensures RestoredFrom(vars, if items[p] == ANone then vs else SetAttr(vs, labels[p], key[1..], items[p]).value,
                         pre + [(key, AList(items[..p + 1]))])
  {
    var d1 := pre + [(key, AList(items[..p]))];
    var d2 := pre + [(key, AList(items[..p + 1]))];
    assert key == "_" + key[1..];
    forall a, r | 0 <= r < |vars|
      ensures Written(d2, a, r) == if key == "_" + a && r == p then (if items[p] == ANone then None else Some(items[p])) else Written(d1, a, r)
      ensures key == "_" + a && r == p ==> Written(d1, a, r).None?
    {
      PairWritten(pre, key, items, p, a, r);
    }
    if items[p] == ANone {
      SameWritten(vars, vs, d1, d2);
    } else {
      var idx := IndexOf(vs, labels[p]);
      assert vs[p].name == labels[p];
      assert idx.Some?;
      assert idx.value == p;
      var ws := SetAttr(vs, labels[p], key[1..], items[p]).value;
      forall r, a | 0 <= r < |vars| ensures Get(ws[r].attrs, a) == RestoredValue(vars[r].attrs, d2, a, r) {
        if r == p && a == key[1..] {
        } else {
          assert Get(ws[r].attrs, a) == Get(vs[r].attrs, a);
        }
      }
    }
  }

  /** What zipping one more pair of an entry adds to what it writes. */
  lemma PairWritten(pre: Dict, key: string, items: seq<Attr>, p: nat, a: string, r: nat)
    requires Get(pre, key).None? && p < |items|
    ensures Written(pre + [(key, AList(items[..p + 1]))], a, r) ==
      if key == "_" + a && r == p then (if items[p] == ANone then None else Some(items[p]))
      else Written(pre + [(key, AList(items[..p]))], a, r)
    ensures key == "_" + a && r == p ==> Written(pre + [(key, AList(items[..p]))], a, r).None?
  {
    WrittenAppend(pre, key, AList(items[..p]), a, r);
    WrittenAppend(pre, key, AList(items[..p + 1]), a, r);
    if key == "_" + a {
      assert Get([(key, AList(items[..p]))], "_" + a) == Some(AList(items[..p]));
      assert Get([(key, AList(items[..p + 1]))], "_" + a) == Some(AList(items[..p + 1]));
      if r < p {
        assert items[..p + 1][r] == items[..p][r];
      }
    }
  }

  /** The restoration after the pairs of entry q before p. */
  lemma {:induction false} RestoredZip(vars: seq<Variable>, lists: Dict, labels: seq<string>, q: nat, p: nat)
    requires Matching(vars, labels) && AllIterable(lists) && DistinctKeys(lists)
    requires q < |lists| && IsPrefixed(lists[q].0) && p <= ZipLength(lists[q], labels)
    ensures AfterZip(vars, lists, labels, q, p).Success?
    ensures RestoredFrom(vars, AfterZip(vars, lists, labels, q, p).value,
                         lists[..q] + [(lists[q].0, AList(Items(lists[q].1).value[..p]))])
    decreases q, 1, p
  {
    var key := lists[q].0;
    var items := Items(lists[q].1).value;
    assert Get(lists[..q], key).None? by {
      GetFinds(lists[..q], key);
    }
    RestoredKeys(vars, lists, labels, q);
    if p == 0 {
      assert items[..0] == [];
      StartList(vars, AfterKeys(vars, lists, labels, q).value, lists[..q], key);
    } else {
      RestoredZip(vars, lists, labels, q, p - 1);
      ZipStep(vars, AfterZip(vars, lists, labels, q, p - 1).value, labels, lists[..q], key, items, p - 1);
    }
  }

  /** The restoration after the entries before q. */
  lemma {:induction false} RestoredKeys(vars: seq<Variable>, lists: Dict, labels: seq<string>, q: nat)
    requires Matching(vars, labels) && AllIterable(lists) && DistinctKeys(lists)
    requires q <= |lists|
    ensures AfterKeys(vars, lists, labels, q).Success?
    ensures RestoredFrom(vars, AfterKeys(vars, lists, labels, q).value, lists[..q])
    decreases q, 0
  {
    if q == 0 {
      forall r, a | 0 <= r < |vars| ensures Written(lists[..0], a, r).None? { }
    } else {
      var e := lists[q - 1];
      assert lists[..q] == lists[..q - 1] + [e];
      assert Get(lists[..q - 1], e.0).None? by {
        GetFinds(lists[..q - 1], e.0);
      }
      if !IsPrefixed(e.0) {
        RestoredKeys(vars, lists, labels, q - 1);
        SkipUnprefixed(vars, AfterKeys(vars, lists, labels, q - 1).value, lists[..q - 1], e);
      } else {
        var items := Items(e.1).value;
        var n := ZipLength(e, labels);
        RestoredZip(vars, lists, labels, q - 1, n);
        EndList(vars, AfterZip(vars, lists, labels, q - 1, n).value, lists[..q - 1], e, items, n);
      }
    }
  }

  /**
   * Restoring over variables that the labels name: it never fails when
   * every prefixed entry is iterable, and each variable then holds, for
   * every attribute `a`, the item at its own position of the list under
   * "_" + a where that item exists and is not None, and its original value
   * of `a` otherwise. Names and values are untouched.
   */
  lemma RestoreWritesBack(vars: seq<Variable>, lists: Dict, labels: seq<string>)
    requires Matching(vars, labels) && AllIterable(lists) && DistinctKeys(lists)
    ensures AfterKeys(vars, lists, labels, |lists|).Success?
    ensures RestoredFrom(vars, AfterKeys(vars, lists, labels, |lists|).value, lists)
  {
    RestoredKeys(vars, lists, labels, |lists|);
    assert lists[..|lists|] == lists;
  }

  /** The attributes each unstacked variable ends up with after a stack. */
  function RoundTripAttr(ds: Dataset, r: nat, a: string): Option<Attr>
    requires r < |ds.vars|
  {
    match Get(ds.vars[r].attrs, a)
    case Some(v) => if v != ANone then Some(v) else Get(Put(ds.attrs, "units", AStr("")), a)
    case None => Get(Put(ds.attrs, "units", AStr("")), a)
  }

  /**
   * Unstacking a stacked dataset gives back its variables in order, with
   * their names and values, and restores every attribute of every variable
   * whose value is not None; attributes a variable lacks come from the
   * stacked array's (the dataset's with `units` ""). The dataset keeps its
   * attributes except `units`. With the lists read from the stacked
   * coordinate this holds for any dimension name; as written, for the
   * default name "variables".
   */
  lemma StackUnstackRoundTrip(ds: Dataset, dim: string, from: ListsFrom) returns (out: Dataset)
    requires ValidDataset(ds) && ds.vars != []
    requires from == StackedCoord || dim == "variables"
    ensures Stacked(ds, dim).Success?
    ensures ValidArray(Stacked(ds, dim).value) && Unstacked(Stacked(ds, dim).value, None, from) == Success(out)
    ensures |out.vars| == |ds.vars|
    ensures forall r :: 0 <= r < |ds.vars| ==> out.vars[r].name == ds.vars[r].name && out.vars[r].data == ds.vars[r].data
    ensures forall r, a {:trigger Get(out.vars[r].attrs, a)} :: 0 <= r < |ds.vars| ==> Get(out.vars[r].attrs, a) == RoundTripAttr(ds, r, a)
    ensures forall k {:trigger Get(out.attrs, k)} :: Get(out.attrs, k) == if k == "units" then None else Get(ds.attrs, k)
  {
    var da := Stacked(ds, dim).value;
    var c := da.coords[0];
    var vars := ds.vars;
    assert Get(c.attrs, "is_variables") == Some(ABool(true)) && DistinctKeys(c.attrs) by {
      StackedAttrLists(vars);
    }
    var sel := Selected(da, c);
    assert Matching(sel, c.labels);
    StackedIterable(vars);
    RestoreWritesBack(sel, c.attrs, c.labels);
    var vs := AfterKeys(sel, c.attrs, c.labels, |c.attrs|).value;
    DistinctPutDel(ds.attrs, "units", AStr(""));
    var units := Del(da.attrs, "units").value;
    UnstackOneCoord(da, from);
    out := Dataset(vs, units);
    forall r, a | 0 <= r < |vars| ensures Get(vs[r].attrs, a) == RoundTripAttr(ds, r, a) {
      StackedWritten(vars, a, r);
      assert Get(vs[r].attrs, a) == RestoredValue(sel[r].attrs, c.attrs, a, r);
    }
  }

  /**
   * Unstacking an array whose single coordinate is flagged: the variables
   * are the selected ones with that coordinate's lists written back.
   */
  lemma UnstackOneCoord(da: DataArray, from: ListsFrom)
    requires ValidArray(da) && |da.coords| == 1 && Truthy(GetOrNone(da.coords[0].attrs, "is_variables"))
    requires from == StackedCoord || da.coords[0].name == "variables"
    requires Del(da.attrs, "units").Success?
    requires AfterKeys(Selected(da, da.coords[0]), da.coords[0].attrs, da.coords[0].labels, |da.coords[0].attrs|).Success?
    ensures Unstacked(da, None, from) == Success(Dataset(
      AfterKeys(Selected(da, da.coords[0]), da.coords[0].attrs, da.coords[0].labels, |da.coords[0].attrs|).value,
      Del(da.attrs, "units").value))
  {
    var c := da.coords[0];
    assert FindDim(da, None) == Success(c.name);
    assert CoordNamed(da.coords, c.name) == Some(c);
  }

  /** Every "_"-prefixed entry of the stacked coordinate is a list. */
  lemma StackedIterable(vars: seq<Variable>)
    requires KeysDistinct(vars)
    ensures AllIterable(StackedAttrs(vars))
  {
    var d := StackedAttrs(vars);
    StackedAttrLists(vars);
    forall m | 0 <= m < |d| && IsPrefixed(d[m].0) ensures Items(d[m].1).Success? {
      GetAt(d, m);
    }
  }

  /** What the stacked coordinate writes back onto variable r: its own non-None value of `a`. */
  lemma StackedWritten(vars: seq<Variable>, a: string, r: nat)
    requires KeysDistinct(vars) && r < |vars|
    ensures Written(StackedAttrs(vars), a, r) ==
      if Get(vars[r].attrs, a).Some? && Get(vars[r].attrs, a).value != ANone then Get(vars[r].attrs, a) else None
  {
    StackedAttrLists(vars);
    assert ("_" + a)[1..] == a;
    if Get(vars[r].attrs, a).Some? {
      assert exists p :: 0 <= p < |vars| && Get(vars[p].attrs, a).Some?;
    }
  }

  /** Setting a key and deleting it leaves the other keys and removes it. */
  lemma DistinctPutDel(d: Dict, k: string, v: Attr)
    requires DistinctKeys(d)
    ensures Del(Put(d, k, v), k).Success?
    ensures forall k' {:trigger Get(Del(Put(d, k, v), k).value, k')} ::
      Get(Del(Put(d, k, v), k).value, k') == if k' == k then None else Get(d, k')
  { }

  /**
   * As written, the lists are read from the coordinate named "variables":
   * a dataset stacked along any other dimension name cannot be unstacked by
   * name (AttributeError), while reading them from the stacked coordinate
   * succeeds.
   */
  lemma UnstackOtherDimensionName()
    ensures var ds := Dataset([Variable("tas", [("units", AStr("K"))], [])], []);
      && Stacked(ds, "vars").Success?
      && Unstacked(Stacked(ds, "vars").value, None, VariablesCoord) == Failure(AttributeError("variables"))
      && Unstacked(Stacked(ds, "vars").value, None, StackedCoord).Success?
  {
    var ds := Dataset([Variable("tas", [("units", AStr("K"))], [])], []);
    assert ValidDataset(ds);
    var _ := StackUnstackRoundTrip(ds, "vars", StackedCoord);
    var da := Stacked(ds, "vars").value;
    StackedAttrLists(ds.vars);
    assert FindDim(da, None) == Success("vars");
    assert CoordNamed(da.coords, "variables").None?;
  }
}
