/** The tabular data the preprocessing stage works on: a batch of car records
    stored column by column, as a data frame stores them. Every cell is a
    text value, a number, or the absence marker. */
module Frames {

  datatype Option<T> = None | Some(value: T)

  datatype Result<T, E> = Ok(value: T) | Err(error: E)

  /** A loop over results that stops at the first error: all the values in
      order, or the first error. */
  function Collect<T, E>(rs: seq<Result<T, E>>): (r: Result<seq<T>, E>)
    ensures r.Ok? ==> |r.value| == |rs|
  {
    if rs == [] then Ok([])
    else
      match Collect(rs[..|rs| - 1])
      case Err(e) => Err(e)
      case Ok(done) =>
        match rs[|rs| - 1]
        case Err(e) => Err(e)
        case Ok(v) => Ok(done + [v])
  }

  /** Collecting succeeds exactly when every result is a value, and then
      yields those values in order. */
  lemma {:induction false} CollectOk<T, E>(rs: seq<Result<T, E>>)
    ensures Collect(rs).Ok? <==> forall k :: 0 <= k < |rs| ==> rs[k].Ok?
    ensures Collect(rs).Ok? ==> forall k :: 0 <= k < |rs| ==> rs[k] == Ok(Collect(rs).value[k])
  {
    if rs != [] {
      var init := rs[..|rs| - 1];
      CollectOk(init);
      assert forall k :: 0 <= k < |init| ==> init[k] == rs[k];
    }
  }

  /** A failed collection reports the first error. */
  lemma {:induction false} CollectErr<T, E>(rs: seq<Result<T, E>>)
    requires Collect(rs).Err?
    ensures exists k :: (0 <= k < |rs| && rs[k] == Err(Collect(rs).error)
      && forall m :: 0 <= m < k ==> rs[m].Ok?)
  {
    var init := rs[..|rs| - 1];
    assert forall k :: 0 <= k < |init| ==> init[k] == rs[k];
    if Collect(init).Err? {
      CollectErr(init);
    } else {
      CollectOk(init);
    }
  }

  /** Once a prefix fails to collect, the whole sequence fails the same way. */
  lemma {:induction false} CollectErrSticks<T, E>(rs: seq<Result<T, E>>, j: nat)
    requires j <= |rs| && Collect(rs[..j]).Err?
    ensures Collect(rs) == Collect(rs[..j])
    decreases |rs| - j
  {
    if j < |rs| {
      assert rs[..|rs| - 1][..j] == rs[..j];
      CollectErrSticks(rs[..|rs| - 1], j);
    } else {
      assert rs[..j] == rs;
    }
  }

  /** One more step of a successful collection. */
  lemma CollectStep<T, E>(rs: seq<Result<T, E>>, j: nat, done: seq<T>, v: T)
    requires j < |rs| && Collect(rs[..j]) == Ok(done) && rs[j] == Ok(v)
    ensures Collect(rs[..j + 1]) == Ok(done + [v])
  {
    assert rs[..j + 1][..j] == rs[..j];
  }

  /** The first error met stops the collection with that error. */
  lemma CollectStopsAt<T, E>(rs: seq<Result<T, E>>, j: nat)
    requires j < |rs| && Collect(rs[..j]).Ok? && rs[j].Err?
    ensures Collect(rs) == Err(rs[j].error)
  {
    assert rs[..j + 1][..j] == rs[..j];
    CollectErrSticks(rs, j + 1);
  }

  /** When every error among the results is `e`, so is the collection's. */
  lemma CollectErrIs<T, E>(rs: seq<Result<T, E>>, e: E)
    requires forall k :: 0 <= k < |rs| && rs[k].Err? ==> rs[k].error == e
    ensures Collect(rs).Err? ==> Collect(rs).error == e
  {
    if Collect(rs).Err? {
      CollectErr(rs);
    }
  }

  /** One cell of a record. `Absent` is the frame's missing-value marker. */
  datatype Cell = Str(text: string) | Num(x: real) | Absent

  /** Text columns hold text cells, numeric columns numeric cells; both may hold `Absent`. */
  datatype Kind = Text | Numeric

  datatype Series = Series(name: string, kind: Kind, cells: seq<Cell>)

  /** A batch of `height` records; column `j` holds the `j`-th attribute of every record. */
  datatype Frame = Frame(height: nat, columns: seq<Series>)

  predicate Fits(k: Kind, c: Cell) {
    match c
    case Str(_) => k == Text
    case Num(_) => k == Numeric
    case Absent => true
  }

  predicate SeriesOk(s: Series, height: nat) {
    |s.cells| == height && forall i :: 0 <= i < |s.cells| ==> Fits(s.kind, s.cells[i])
  }

  predicate DistinctNames(cols: seq<Series>) {
    forall j, k :: 0 <= j < k < |cols| ==> cols[j].name != cols[k].name
  }

  /** Column names are unique and every column has one well-typed cell per record. */
  predicate WellFormed(f: Frame) {
    DistinctNames(f.columns) && forall j :: 0 <= j < |f.columns| ==> SeriesOk(f.columns[j], f.height)
  }

  function Names(cols: seq<Series>): set<string> {
    set j | 0 <= j < |cols| :: cols[j].name
  }

  /** Position of the first column called `name`. */
  function IndexOf(cols: seq<Series>, name: string): (r: Option<nat>)
    ensures r.Some? ==> r.value < |cols| && cols[r.value].name == name
    ensures r.Some? ==> forall k :: 0 <= k < r.value ==> cols[k].name != name
    ensures r.None? <==> name !in Names(cols)
  {
    if cols == [] then None
    else if cols[0].name == name then Some(0)
    else
      var r := IndexOf(cols[1..], name);
      assert Names(cols) == {cols[0].name} + Names(cols[1..]) by {
        forall n | n in Names(cols) ensures n in {cols[0].name} + Names(cols[1..]) {
          var j :| 0 <= j < |cols| && cols[j].name == n;
          if j > 0 { assert cols[1..][j - 1] == cols[j]; }
        }
        forall n | n in Names(cols[1..]) ensures n in Names(cols) {
          var j :| 0 <= j < |cols[1..]| && cols[1..][j].name == n;
          assert cols[j + 1] == cols[1..][j];
        }
      }
      if r.None? then None else Some(r.value + 1)
  }

  /** The column called `name`, as `df[name]` reads it. */
  function ColumnOf(cols: seq<Series>, name: string): (r: Option<Series>)
    ensures r.Some? <==> name in Names(cols)
    ensures r.Some? ==> r.value in cols && r.value.name == name
  {
    match IndexOf(cols, name)
    case Some(k) => Some(cols[k])
    case None => None
  }

  /** `df[s.name] = s`: an existing column of that name is overwritten where it
      stands, otherwise the column is appended at the end. */
  function Assign(cols: seq<Series>, s: Series): (r: seq<Series>)
    ensures Names(r) == Names(cols) + {s.name}
    ensures ColumnOf(r, s.name) == Some(s)
    ensures s.name !in Names(cols) ==> r == cols + [s]
    ensures s.name in Names(cols) ==> |r| == |cols| && forall k :: 0 <= k < |cols| ==>
      r[k] == if k == IndexOf(cols, s.name).value then s else cols[k]
  {
    match IndexOf(cols, s.name)
    case Some(k) =>
      var r := cols[k := s];
      assert Names(r) == Names(cols) by {
        forall n | n in Names(cols) ensures n in Names(r) {
          var j :| 0 <= j < |cols| && cols[j].name == n;
          assert r[j].name == n;
        }
        forall n | n in Names(r) ensures n in Names(cols) {
          var j :| 0 <= j < |r| && r[j].name == n;
          assert cols[j].name == n;
        }
      }
      assert IndexOf(r, s.name) == Some(k) by {
        FirstIndex(r, s.name, k);
      }
      r
    case None =>
      var r := cols + [s];
      assert Names(r) == Names(cols) + {s.name} by {
        forall n | n in Names(r) ensures n in Names(cols) + {s.name} {
          var j :| 0 <= j < |r| && r[j].name == n;
          if j < |cols| { assert cols[j].name == n; }
        }
        forall n | n in Names(cols) ensures n in Names(r) {
          var j :| 0 <= j < |cols| && cols[j].name == n;
          assert r[j].name == n;
        }
        assert r[|cols|].name == s.name;
      }
      assert IndexOf(r, s.name) == Some(|cols|) by {
        forall k | 0 <= k < |cols| ensures r[k].name != s.name {
          assert cols[k].name in Names(cols);
        }
        FirstIndex(r, s.name, |cols|);
      }
      r
  }

  lemma {:induction false} FirstIndex(cols: seq<Series>, name: string, k: nat)
    requires k < |cols| && cols[k].name == name
    requires forall j :: 0 <= j < k ==> cols[j].name != name
    ensures IndexOf(cols, name) == Some(k)
  {
    if k > 0 {
      FirstIndex(cols[1..], name, k - 1);
    }
  }

  /** Keeping exactly the columns whose names are not dropped keeps exactly
      the names that are not dropped. */
  lemma NamesOfFilter(cols: seq<Series>, r: seq<Series>, drop: set<string>)
    requires forall s :: s in r <==> s in cols && s.name !in drop
    ensures Names(r) == Names(cols) - drop
  {
    forall n | n in Names(r) ensures n in Names(cols) - drop {
      var j :| 0 <= j < |r| && r[j].name == n;
      assert r[j] in r;
      var i :| 0 <= i < |cols| && cols[i] == r[j];
    }
    forall n | n in Names(cols) - drop ensures n in Names(r) {
      var j :| 0 <= j < |cols| && cols[j].name == n;
      assert cols[j] in r;
      var i :| 0 <= i < |r| && r[i] == cols[j];
    }
  }

  /** The columns whose names are not in `drop`, in their original order. */
  function Without(cols: seq<Series>, drop: set<string>): (r: seq<Series>)
    ensures forall s :: s in r <==> s in cols && s.name !in drop
    ensures Names(r) == Names(cols) - drop
  {
    if cols == [] then []
    else
      var rest := Without(cols[1..], drop);
      var r := if cols[0].name in drop then rest else [cols[0]] + rest;
      assert forall s :: s in cols <==> s == cols[0] || s in cols[1..];
      NamesOfFilter(cols, r, drop);
      r
  }

  /** `df.drop(columns=name)`. */
  function Drop(cols: seq<Series>, name: string): (r: seq<Series>)
    ensures Names(r) == Names(cols) - {name}
  {
    Without(cols, {name})
  }

  /** `df[s.name] = s` followed by `df.drop(columns=source)`: a derived column
      takes the place of the column it is computed from. */
  function Replace(cols: seq<Series>, source: string, s: Series): (r: seq<Series>)
    requires source != s.name
    ensures Names(r) == Names(cols) - {source} + {s.name}
    ensures ColumnOf(r, s.name) == Some(s)
    ensures forall n :: n != source && n != s.name ==> ColumnOf(r, n) == ColumnOf(cols, n)
    ensures forall drop :: source in drop && s.name in drop ==> Without(r, drop) == Without(cols, drop)
  {
    ReplaceFacts(cols, source, s);
    Drop(Assign(cols, s), source)
  }

  lemma ReplaceFacts(cols: seq<Series>, source: string, s: Series)
    requires source != s.name
    ensures ColumnOf(Drop(Assign(cols, s), source), s.name) == Some(s)
    ensures forall n :: n != source && n != s.name ==> ColumnOf(Drop(Assign(cols, s), source), n) == ColumnOf(cols, n)
    ensures forall drop :: source in drop && s.name in drop ==> Without(Drop(Assign(cols, s), source), drop) == Without(cols, drop)
  {
    ColumnOfWithout(Assign(cols, s), {source}, s.name);
    forall n | n != source && n != s.name
      ensures ColumnOf(Drop(Assign(cols, s), source), n) == ColumnOf(cols, n)
    {
      ReplaceLookup(cols, source, s, n);
    }
    forall drop | source in drop && s.name in drop
      ensures Without(Drop(Assign(cols, s), source), drop) == Without(cols, drop)
    {
      ReplaceWithout(cols, source, s, drop);
    }
  }

  lemma ReplaceLookup(cols: seq<Series>, source: string, s: Series, n: string)
    requires n != source && n != s.name
    ensures ColumnOf(Drop(Assign(cols, s), source), n) == ColumnOf(cols, n)
  {
    ColumnOfWithout(Assign(cols, s), {source}, n);
    ColumnOfAssignOther(cols, s, n);
  }

  lemma ReplaceWithout(cols: seq<Series>, source: string, s: Series, drop: set<string>)
    requires source in drop && s.name in drop
    ensures Without(Drop(Assign(cols, s), source), drop) == Without(cols, drop)
  {
    var a := Assign(cols, s);
    WithoutTwice(a, {source}, drop);
    Absorb(source, drop);
    WithoutAssign(cols, s, drop);
  }

  lemma Absorb(x: string, drop: set<string>)
    requires x in drop
    ensures {x} + drop == drop
  {
  }

  lemma ReplaceKeepsShape(cols: seq<Series>, source: string, s: Series, height: nat)
    requires source != s.name
    requires DistinctNames(cols) && forall j :: 0 <= j < |cols| ==> SeriesOk(cols[j], height)
    requires SeriesOk(s, height)
    ensures DistinctNames(Replace(cols, source, s))
    ensures forall j :: 0 <= j < |Replace(cols, source, s)| ==> SeriesOk(Replace(cols, source, s)[j], height)
  {
    AssignKeepsShape(cols, s, height);
    WithoutKeepsShape(Assign(cols, s), {source}, height);
  }

  lemma {:induction false} WithoutAppend(a: seq<Series>, b: seq<Series>, drop: set<string>)
    ensures Without(a + b, drop) == Without(a, drop) + Without(b, drop)
  {
    if a == [] {
      assert a + b == b;
    } else {
      assert (a + b)[0] == a[0] && (a + b)[1..] == a[1..] + b;
      WithoutAppend(a[1..], b, drop);
    }
  }

  /** Dropping `a` and then `b` is dropping both at once. */
  lemma {:induction false} WithoutTwice(cols: seq<Series>, a: set<string>, b: set<string>)
    ensures Without(Without(cols, a), b) == Without(cols, a + b)
  {
    if cols != [] {
      WithoutTwice(cols[1..], a, b);
    }
  }

  /** Overwriting or appending a column whose name is dropped anyway leaves the
      remaining columns, and their order, as they were. */
  lemma {:induction false} WithoutAssign(cols: seq<Series>, s: Series, drop: set<string>)
    requires s.name in drop
    ensures Without(Assign(cols, s), drop) == Without(cols, drop)
  {
    match IndexOf(cols, s.name)
    case Some(k) => WithoutUpdate(cols, k, s, drop);
    case None =>
      WithoutAppend(cols, [s], drop);
      assert Without([s], drop) == [];
  }

  lemma {:induction false} WithoutUpdate(cols: seq<Series>, k: nat, s: Series, drop: set<string>)
    requires k < |cols| && cols[k].name in drop && s.name in drop
    ensures Without(cols[k := s], drop) == Without(cols, drop)
  {
    if k > 0 {
      assert cols[k := s][1..] == cols[1..][k - 1 := s];
      WithoutUpdate(cols[1..], k - 1, s, drop);
    } else {
      assert cols[k := s][1..] == cols[1..];
    }
  }

  /** Removing columns never reorders or renames the others, so the looked-up
      column of a kept name is the same. */
  lemma {:induction false} ColumnOfWithout(cols: seq<Series>, drop: set<string>, name: string)
    requires name !in drop
    ensures ColumnOf(Without(cols, drop), name) == ColumnOf(cols, name)
  {
    if cols != [] {
      ColumnOfWithout(cols[1..], drop, name);
      var r := Without(cols, drop);
      if cols[0].name !in drop {
        assert r == [cols[0]] + Without(cols[1..], drop);
        if cols[0].name != name {
          ColumnOfTail(r, name);
        }
      }
      if cols[0].name != name {
        ColumnOfTail(cols, name);
      }
    }
  }

  lemma ColumnOfTail(cols: seq<Series>, name: string)
    requires cols != [] && cols[0].name != name
    ensures ColumnOf(cols, name) == ColumnOf(cols[1..], name)
  {
  }

  /** Overwriting or appending one column leaves every other column as it was. */
  lemma ColumnOfAssignOther(cols: seq<Series>, s: Series, name: string)
    requires name != s.name
    ensures ColumnOf(Assign(cols, s), name) == ColumnOf(cols, name)
  {
    var r := Assign(cols, s);
    match IndexOf(cols, name)
    case None =>
    case Some(k) =>
      assert r[k] == cols[k];
      FirstIndex(r, name, k);
  }

  /** The frame stays well formed under overwriting or appending a well-typed column. */
  lemma AssignKeepsShape(cols: seq<Series>, s: Series, height: nat)
    requires DistinctNames(cols) && forall j :: 0 <= j < |cols| ==> SeriesOk(cols[j], height)
    requires SeriesOk(s, height)
    ensures DistinctNames(Assign(cols, s))
    ensures forall j :: 0 <= j < |Assign(cols, s)| ==> SeriesOk(Assign(cols, s)[j], height)
  {
    var r := Assign(cols, s);
    match IndexOf(cols, s.name)
    case Some(k) =>
    case None =>
      forall j | 0 <= j < |cols| ensures cols[j].name != s.name {
        assert cols[j].name in Names(cols);
      }
  }

  lemma {:induction false} WithoutKeepsShape(cols: seq<Series>, drop: set<string>, height: nat)
    requires DistinctNames(cols) && forall j :: 0 <= j < |cols| ==> SeriesOk(cols[j], height)
    ensures DistinctNames(Without(cols, drop))
    ensures forall j :: 0 <= j < |Without(cols, drop)| ==> SeriesOk(Without(cols, drop)[j], height)
  {
    var r := Without(cols, drop);
    if cols != [] {
      WithoutKeepsShape(cols[1..], drop, height);
      var rest := Without(cols[1..], drop);
      if cols[0].name !in drop {
        forall k | 0 <= k < |rest| ensures rest[k].name != cols[0].name {
          assert rest[k] in rest;
          var i :| 0 <= i < |cols[1..]| && cols[1..][i] == rest[k];
          assert cols[i + 1] == rest[k];
        }
        assert r == [cols[0]] + rest;
      }
    }
    forall j | 0 <= j < |r| ensures SeriesOk(r[j], height) {
      assert r[j] in r;
    }
  }
}
