/** Pages of the streams that match a query, and what following their cursors lists. */
module StreamPages {
  import opened Bytes

  /** The rows of a page, where the next one starts, and how many streams were looked at. */
  datatype Page = Page(rows: seq<nat>, next: Option<nat>, scanned: nat)

  /** Goes through the order from an index until so many of the chosen streams are found. */
  function Scan(order: seq<nat>, chosen: set<nat>, index: nat, limit: nat): (r: Page)
    requires index <= |order| && limit > 0
    ensures r.next.Some? ==> index < r.next.value < |order|
    decreases |order| - index
  {
    if index == |order| then Page([], None, 0)
    else if order[index] !in chosen then
      var rest := Scan(order, chosen, index + 1, limit);
      rest.(scanned := rest.scanned + 1)
    else if limit == 1 then Page([order[index]], if index + 1 < |order| then Some(index + 1) else None, 1)
    else
      var rest := Scan(order, chosen, index + 1, limit - 1);
      Page([order[index]] + rest.rows, rest.next, rest.scanned + 1)
  }

  function RowLimit(limit: nat, maxQueryLimit: nat): nat { Min(Max(limit, 1), Max(maxQueryLimit, 1)) }

  /** A page has as many rows as asked for and allowed, but at least one. */
  lemma RowLimitIs(limit: nat, maxQueryLimit: nat)
    ensures RowLimit(limit, maxQueryLimit)
            == if limit == 0 || maxQueryLimit == 0 then 1 else if limit <= maxQueryLimit then limit else maxQueryLimit
  {
  }

  lemma ScanFirst(order: seq<nat>, chosen: set<nat>, index: nat, limit: nat)
    requires index <= |order| && limit > 0
    ensures Scan(order, chosen, index, limit)
            == if index == |order| then Page([], None, 0)
               else if order[index] in chosen && limit == 1 then
                 Page([order[index]], if index + 1 < |order| then Some(index + 1) else None, 1)
               else
                 var row := if order[index] in chosen then [order[index]] else [];
                 var rest := Scan(order, chosen, index + 1, limit - |row|);
                 Page(row + rest.rows, rest.next, 1 + rest.scanned)
  {
  }

  method Query(order: seq<nat>, chosen: set<nat>, cursor: nat, limit: nat, maxQueryLimit: nat) returns (page: Page)
    ensures page == Scan(order, chosen, Min(cursor, |order|), RowLimit(limit, maxQueryLimit))
  {
    hide Scan;
    var most := RowLimit(limit, maxQueryLimit);
    var start := Min(cursor, |order|);
    var rows, scanned, next := [], 0, None;
    for index := start to |order|
      invariant |rows| < most
      invariant Scan(order, chosen, start, most)
             == (var rest := Scan(order, chosen, index, most - |rows|);
                 Page(rows + rest.rows, rest.next, scanned + rest.scanned))
    {
      ScanFirst(order, chosen, index, most - |rows|);
      scanned := scanned + 1;
      if order[index] !in chosen {
        continue;
      }
      rows := rows + [order[index]];
      if |rows| == most {
        next := if index + 1 < |order| then Some(index + 1) else None;
        return Page(rows, next, scanned);
      }
    }
    ScanFirst(order, chosen, |order|, most - |rows|);
    page := Page(rows, next, scanned);
  }

  /** The chosen streams in their order. */
  function Chosen(order: seq<nat>, chosen: set<nat>): seq<nat> {
    if order == [] then []
    else (if order[0] in chosen then [order[0]] else []) + Chosen(order[1..], chosen)
  }

  /** All rows got by asking again from each `next_cursor`. */
  function Follow(order: seq<nat>, chosen: set<nat>, cursor: nat, limit: nat): seq<nat>
    requires cursor <= |order| && limit > 0
    decreases |order| - cursor
  {
    var page := Scan(order, chosen, cursor, limit);
    if page.next.None? then page.rows else page.rows + Follow(order, chosen, page.next.value, limit)
  }

  /** A page holds the next chosen streams: all that are left, or a full page up to its cursor. */
  lemma {:induction false} PageIs(order: seq<nat>, chosen: set<nat>, index: nat, limit: nat)
    requires index <= |order| && limit > 0
    ensures var page := Scan(order, chosen, index, limit);
            && |page.rows| <= limit
            && (page.next.None? ==> page.rows == Chosen(order[index..], chosen))
            && (page.next.Some? ==>
                  && |page.rows| == limit
                  && page.rows + Chosen(order[page.next.value..], chosen) == Chosen(order[index..], chosen)
                  && page.scanned == page.next.value - index)
    decreases |order| - index
  {
    if index < |order| {
      assert order[index..][0] == order[index] && order[index..][1..] == order[index + 1..];
      if order[index] !in chosen {
        PageIs(order, chosen, index + 1, limit);
      } else if limit > 1 {
        PageIs(order, chosen, index + 1, limit - 1);
        var rest := Scan(order, chosen, index + 1, limit - 1);
        if rest.next.Some? {
          assert [order[index]] + rest.rows + Chosen(order[rest.next.value..], chosen)
              == [order[index]] + (rest.rows + Chosen(order[rest.next.value..], chosen));
        }
      } else if index + 1 == |order| {
        assert order[index + 1..] == [];
      }
    }
  }

  /** Following the cursors from the start lists every matching stream once, in order, whatever the page size. */
  lemma {:induction false} CursorsListAll(order: seq<nat>, chosen: set<nat>, cursor: nat, limit: nat)
    requires cursor <= |order| && limit > 0
    ensures Follow(order, chosen, cursor, limit) == Chosen(order[cursor..], chosen)
    decreases |order| - cursor
  {
    hide Scan, Chosen;
    PageIs(order, chosen, cursor, limit);
    var page := Scan(order, chosen, cursor, limit);
    if page.next.Some? {
      CursorsListAll(order, chosen, page.next.value, limit);
    }
  }

  /** The streams listed are exactly the chosen ones of the order, each as often as it is there. */
  lemma {:induction false} ChosenAre(order: seq<nat>, chosen: set<nat>, id: nat)
    ensures multiset(Chosen(order, chosen))[id] == if id in chosen then multiset(order)[id] else 0
  {
    if order != [] {
      ChosenAre(order[1..], chosen, id);
      assert order == [order[0]] + order[1..];
      assert multiset(order) == multiset([order[0]]) + multiset(order[1..]);
    }
  }
}
