/** Following next_offset from page to page over an answer that does not change. */
module PageWalk {
  import opened Options
  import opened Paging
  import opened Reader

  /** What one page says: the next rows in order, and whether more remain. */
  lemma PageRule(d: Database, q: Request)
    requires d.Valid() && Answer(d, q).Ok? && !q.columnsOnly
    ensures 0 <= q.offset <= MAX_OFFSET
    ensures var r := Answer(d, q).result;
      && r.count == |r.rows| <= q.limit && Start(d, q) + r.count <= |d.rows|
      && r.rows == RowsFrom(d, q.view, Start(d, q), Start(d, q) + r.count)
      && (r.truncated <==> Start(d, q) + r.count < |d.rows|)
      && r.next == (if r.truncated then Some(q.offset + r.count) else None)
      && (r.truncated ==> r.count > 0)
  {
    hide Answer, Refusal, Fill, Cost, Used, Shape, Fault, HeaderBytes, ResultText, RowsFrom, Visible, Only;
    AnswerIsFill(d, q);
    PageIsLongest(d, q);
  }

  /** Row m of a page shows row Start + m of the database, field by field. */
  lemma PageShows(d: Database, q: Request, m: nat, i: nat)
    requires d.Valid() && Answer(d, q).Ok? && !q.columnsOnly && m < Answer(d, q).result.count && i < |d.columns|
    ensures Start(d, q) + m < |d.rows| && m < |Answer(d, q).result.rows|
    ensures var column, value, row := d.columns[i], d.rows[Start(d, q) + m][i], Answer(d, q).result.rows[m];
      && (column in row <==>
            (q.view.columns == [] || column in q.view.columns) && (q.view.includeEmpty || !LeftOut(d, q.view, column, value)))
      && (column in row ==> ShownAs(d, q.view, column, value, row[column]))
  {
    hide Answer, Refusal, Shape, RowsFrom, LeftOut, ShownAs, HeaderBytes, ResultText, SelectionObjection;
    PageRule(d, q);
    AnswerChecks(d, q);
    var r := Answer(d, q).result;
    RowsFromAt(d, q.view, Start(d, q), Start(d, q) + r.count, Start(d, q) + m);
    SelectionRule(d.columns, q);
    ShownRow(d, q.view, d.rows[Start(d, q) + m], i);
  }

  lemma AnswerChecks(d: Database, q: Request)
    requires d.Valid() && Answer(d, q).Ok?
    ensures ValidateOptions(q).None? && SelectionObjection(d.columns, q).None?
  {
    hide Used, Shape, HeaderBytes, ResultText, RowsFrom, SelectionObjection;
    RefusalChecks(d, q);
  }

  /**
   The columns that a page names: the requested ones or all, and unless empty fields stay only those that
   some row of the page shows, in the order in which they were requested or stand in the database.
   */
  lemma ColumnsShown(d: Database, q: Request)
    requires d.Valid() && Answer(d, q).Ok? && !q.columnsOnly
    ensures var names, r := if q.view.columns == [] then d.columns else q.view.columns, Answer(d, q).result;
      && (forall c :: c in r.columns <==> c in names && (q.view.includeEmpty || exists k :: 0 <= k < |r.rows| && c in r.rows[k]))
      && InOrder(r.columns, names)
  {
    hide Answer, Refusal, Shape, RowsFrom, HeaderBytes, ResultText, SelectionObjection;
    AnswerIsFill(d, q);
    AnswerChecks(d, q);
    SelectionRule(d.columns, q);
    var r, names := Answer(d, q).result, Selected(d.columns, q.view);
    VisibleHolds(r.rows);
    OnlyHolds(names, Visible(r.rows));
    InOrderItself(names);
  }

  ghost predicate Before(names: seq<string>, x: string, y: string) {
    exists i, j :: 0 <= i < j < |names| && names[i] == x && names[j] == y
  }

  /** The names of the first list stand in the second in the same order. */
  ghost predicate InOrder(some: seq<string>, names: seq<string>) {
    forall a, b :: 0 <= a < b < |some| ==> Before(names, some[a], some[b])
  }

  lemma InOrderItself(names: seq<string>)
    ensures InOrder(names, names)
  {
    forall a, b | 0 <= a < b < |names| ensures Before(names, names[a], names[b]) {
    }
  }

  lemma {:induction false} VisibleHolds(rows: seq<Row>)
    ensures forall c :: c in Visible(rows) <==> exists k :: 0 <= k < |rows| && c in rows[k]
  {
    if rows != [] {
      var init, last := rows[..|rows| - 1], rows[|rows| - 1];
      VisibleHolds(init);
      forall c ensures c in Visible(rows) <==> exists k :: 0 <= k < |rows| && c in rows[k] {
        if k :| 0 <= k < |init| && c in init[k] { assert c in rows[k]; }
        if k :| 0 <= k < |rows| && c in rows[k] { assert k == |init| || init[k] == rows[k]; }
      }
    }
  }

  lemma {:induction false} OnlyHolds(names: seq<string>, visible: set<string>)
    ensures forall c :: c in Only(names, visible) <==> c in names && c in visible
    ensures InOrder(Only(names, visible), names)
  {
    if names != [] {
      var init, last := names[..|names| - 1], names[|names| - 1];
      OnlyHolds(init, visible);
      assert names == init + [last];
      var kept, some := Only(init, visible), Only(names, visible);
      forall a, b | 0 <= a < b < |some|
        ensures Before(names, some[a], some[b])
      {
        if b < |kept| {
          assert Before(init, kept[a], kept[b]);
          var i, j :| 0 <= i < j < |init| && init[i] == kept[a] && init[j] == kept[b];
          assert names[i] == some[a] && names[j] == some[b];
        } else {
          assert some[a] == kept[a] && kept[a] in init;
          var i :| 0 <= i < |init| && init[i] == some[a];
          assert names[i] == some[a] && names[|init|] == some[b];
        }
      }
    }
  }

  lemma AnswerIsFill(d: Database, q: Request)
    requires d.Valid() && Answer(d, q).Ok? && !q.columnsOnly
    ensures ValidateOptions(q).None? && HeaderBytes(d, q.view) <= q.maxBytes
    ensures var f := Fill(WindowOf(d, q), 0);
      f.Page? && Answer(d, q).result == PageResult(d, q, f.rows, f.reason)
  {
    hide Used, Shape, HeaderBytes, ResultText, RowsFrom, SelectionObjection;
    RefusalChecks(d, q);
  }

  datatype Walked = Whole(rows: seq<Row>) | Broken(rows: seq<Row>, at: nat, error: Error)

  function After(rows: seq<Row>, w: Walked): Walked {
    match w
    case Whole(rest) => Whole(rows + rest)
    case Broken(rest, at, e) => Broken(rows + rest, at, e)
  }

  /** The walk from an offset: every page moves on, so it ends. */
  ghost function Walk(d: Database, q: Request, o: nat): Walked
    requires d.Valid() && !q.columnsOnly
    decreases if o <= |d.rows| then |d.rows| - o else 0
  {
    var at := q.(offset := o);
    match Answer(d, at)
    case Failed(e) => Broken([], o, e)
    case Ok(r) =>
      PageRule(d, at);
      if r.next.None? then Whole(r.rows) else After(r.rows, Walk(d, q, r.next.value))
  }

  lemma StartsAt(d: Database, q: Request, o: nat)
    ensures Start(d, q.(offset := o)) == if o <= |d.rows| then o else |d.rows|
  {
  }

  /** The pages of a walk tile the answer: every row once, in order, up to the end or to the first failure. */
  lemma {:induction false} PagesTile(d: Database, q: Request, o: nat)
    requires d.Valid() && !q.columnsOnly && o <= |d.rows|
    ensures match Walk(d, q, o)
      case Whole(rows) => rows == RowsFrom(d, q.view, o, |d.rows|)
      case Broken(rows, at, e) =>
        o <= at <= |d.rows| && rows == RowsFrom(d, q.view, o, at) && Answer(d, q.(offset := at)) == Failed(e)
    decreases |d.rows| - o
  {
    hide Answer, Shape, Start;
    var at := q.(offset := o);
    if Answer(d, at).Ok? {
      var r := Answer(d, at).result;
      PageRule(d, at);
      StartsAt(d, q, o);
      if r.next.Some? {
        PagesTile(d, q, r.next.value);
        match Walk(d, q, r.next.value)
        case Whole(_) => RowsConcat(d, q.view, o, r.next.value, |d.rows|);
        case Broken(_, end, _) => RowsConcat(d, q.view, o, r.next.value, end);
      }
    }
  }

  /** Row k fits a page of its own. */
  ghost predicate RowFits(d: Database, q: Request, k: nat)
    requires d.Valid()
  {
    Cost(d, q.view, k, k + 1) <= q.maxBytes
  }

  /** Nothing fails while the answer is read. */
  ghost predicate Sound(d: Database, v: View)
    requires d.Valid()
  {
    d.end.None? && forall k: nat :: k < |d.rows| ==> Fault(d, v, k).None?
  }

  /** Over a sound database, a page fails only beyond the offset cap or at a first row over the budget. */
  lemma PageFailure(d: Database, q: Request, o: nat)
    requires d.Valid() && !q.columnsOnly && Sound(d, q.view) && Refusal(d, q.(offset := 0)).None? && o <= |d.rows|
    ensures match Answer(d, q.(offset := o))
      case Ok(_) => o <= MAX_OFFSET && (o < |d.rows| ==> RowFits(d, q, o))
      case Failed(e) =>
        || (e == InvalidOptions("offset") && o > MAX_OFFSET)
        || (e == FirstRowTooLong && o < |d.rows| && !RowFits(d, q, o))
  {
    if o > MAX_OFFSET {
      BeyondTheCap(d, q, o);
    } else {
      hide Used, Shape, Refusal, Answer, Fill, HeaderBytes, RowsFrom, Fault;
      var at := q.(offset := o);
      SameRefusal(d, q, o);
      RefusalChecks(d, at);
      PageIsLongest(d, at);
      AnswerOfFill(d, at);
      EmptyPageFits(d, at);
      WindowIsSound(d, q, o);
      if o < |d.rows| { FirstRow(WindowOf(d, at)); }
    }
  }

  lemma WindowIsSound(d: Database, q: Request, o: nat)
    requires d.Valid() && Sound(d, q.view) && o <= |d.rows| && ValidateOptions(q.(offset := o)).None?
    ensures var w := WindowOf(d, q.(offset := o));
      w.cost(1) == Cost(d, q.view, o, o + 1) && forall n: nat :: n < w.left ==> w.fault(n).None?
  {
    hide Cost, Fault;
    var w := WindowOf(d, q.(offset := o));
    forall n: nat | n < w.left ensures w.fault(n).None? {
      assert w.fault(n) == Fault(d, q.view, o + n);
    }
  }

  lemma BeyondTheCap(d: Database, q: Request, o: nat)
    requires d.Valid() && Refusal(d, q.(offset := 0)).None? && o > MAX_OFFSET
    ensures Answer(d, q.(offset := o)) == Failed(InvalidOptions("offset"))
  {
  }

  lemma AnswerOfFill(d: Database, q: Request)
    requires d.Valid() && Refusal(d, q).None? && !q.columnsOnly && d.end.None?
    ensures match Fill(WindowOf(d, q), 0)
      case Page(n, reason) => Answer(d, q).Ok?
      case Stopped(e) => Answer(d, q) == Failed(e)
      case TooLong => Answer(d, q) == Failed(FirstRowTooLong)
  {
    hide Used, Shape, HeaderBytes, ResultText, RowsFrom, SelectionObjection;
  }

  lemma SameRefusal(d: Database, q: Request, o: nat)
    requires Refusal(d, q.(offset := 0)).None? && o <= MAX_OFFSET
    ensures Refusal(d, q.(offset := o)).None?
  {
  }

  lemma FirstRow(w: Window<Error>)
    requires Described(w, Fill(w, 0)) && Fits(w, 0) && w.left > 0 && w.limit > 0
    requires forall n: nat :: n < w.left ==> w.fault(n).None?
    ensures Fill(w, 0) == TooLong <==> w.cost(1) > w.budget
    ensures Fill(w, 0).Page? <==> w.cost(1) <= w.budget
  {
    FillSucceedsOrNot(w);
  }

  lemma FillSucceedsOrNot(w: Window<Error>)
    requires Fits(w, 0) && w.left > 0 && w.limit > 0
    requires forall n: nat :: n < w.left ==> w.fault(n).None?
    ensures if w.cost(1) > w.budget then Fill(w, 0) == TooLong else Fill(w, 0).Page?
  {
    if w.cost(1) <= w.budget { FillSucceeds(w); }
  }

  /**
   Following next_offset from the first page reads the whole answer whenever each row fits a page of
   its own and the answer ends within one row of the offset cap. Otherwise the walk names the row that
   does not fit, or stops at the cap.
   */
  lemma WalkReadsEverything(d: Database, q: Request)
    requires d.Valid() && !q.columnsOnly && Sound(d, q.view) && Refusal(d, q.(offset := 0)).None?
    ensures (forall k :: 0 <= k < |d.rows| ==> RowFits(d, q, k)) && |d.rows| <= MAX_OFFSET + 1 ==>
      Walk(d, q, 0) == Whole(RowsFrom(d, q.view, 0, |d.rows|))
    ensures Walk(d, q, 0).Broken? ==>
      var at := Walk(d, q, 0).at;
      at <= |d.rows| && (at > MAX_OFFSET || (at < |d.rows| && !RowFits(d, q, at)))
  {
    hide Answer, Cost, Fault, RowsFrom;
    PagesTile(d, q, 0);
    if Walk(d, q, 0).Broken? {
      var at := Walk(d, q, 0).at;
      PageFailure(d, q, at);
      WalkReaches(d, q, 0);
    }
  }

  /** A walk only fails at the offset it is asked for, or at an offset with a row. */
  lemma {:induction false} WalkReaches(d: Database, q: Request, o: nat)
    requires d.Valid() && !q.columnsOnly && o <= |d.rows|
    ensures Walk(d, q, o).Broken? ==> Walk(d, q, o).at == o || Walk(d, q, o).at < |d.rows|
    decreases |d.rows| - o
  {
    var at := q.(offset := o);
    if Answer(d, at).Ok? {
      PageRule(d, at);
      var r := Answer(d, at).result;
      if r.next.Some? { WalkReaches(d, q, r.next.value); }
    }
  }
}
