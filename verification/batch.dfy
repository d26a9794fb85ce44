/** `GoogleSheetAppender.append_batch` (google_sheets.py) from the fetched
    header rows on: every row of the batch is aligned in order against its
    sheet's header list, which grows as rows add columns; then the header
    requests and the row requests are assembled into one batch update. */
module Batch {
  import opened Wrappers
  import opened Cells
  import opened Flattening
  import opened Columns
  import opened Requests

  /** `AppendRow`: a target sheet and the row's `(field, value)` items in
      the order of `data.items()`. */
  datatype AppendRow = AppendRow(sheetId: SheetId, data: seq<(string, Value)>)

  /** The `KeyError` raised when a row names a sheet whose header row was not
      fetched. */
  datatype BatchError = UnknownSheet(sheetId: SheetId)

  /** `new_headers`: for each sheet that gained columns, the names added.
      A Python dict iterates in insertion order, so the sheets are kept in
      the order they first gained a column. */
  datatype NewHeaders = NewHeaders(order: seq<SheetId>, names: map<SheetId, seq<string>>)

  /** The names recorded for a sheet; none when it has no entry. */
  function Added(nh: NewHeaders, id: SheetId): seq<string>
  {
    if id in nh.names then nh.names[id] else []
  }

  /** The dict's keys are listed once each, and only sheets that gained a
      column have an entry. */
  predicate WellKept(nh: NewHeaders)
  {
    && NoDuplicates(nh.order)
    && (forall k :: 0 <= k < |nh.order| ==> nh.order[k] in nh.names)
    && (forall id :: id in nh.names ==> id in nh.order && |nh.names[id]| > 0)
  }

  /** `new_headers.setdefault(sheet_id, []).append(field)` for each field a
      row added, in order. */
  function Record(nh: NewHeaders, id: SheetId, fields: seq<string>): (r: NewHeaders)
    ensures WellKept(nh) ==> WellKept(r)
    ensures Added(r, id) == Added(nh, id) + fields
    ensures forall other :: other != id ==> Added(r, other) == Added(nh, other)
    ensures r.order == if |fields| == 0 || id in nh.names then nh.order else nh.order + [id]
    ensures r.names.Keys == if |fields| == 0 then nh.names.Keys else nh.names.Keys + {id}
  {
    if |fields| == 0 then nh
    else if id in nh.names then NewHeaders(nh.order, nh.names[id := nh.names[id] + fields])
    else NewHeaders(nh.order + [id], nh.names[id := fields])
  }

  /** No added name repeats, and none was already among the fetched headers. */
  predicate Fresh(fetched: seq<string>, added: seq<string>)
  {
    && NoDuplicates(added)
    && forall f :: f in added ==> f !in fetched
  }

  /** The state the per-row loop carries: `headers_by_sheet_id`,
      `new_headers` and `append_row_requests`. */
  datatype Progress = Progress(headers: map<SheetId, seq<string>>, newHeaders: NewHeaders, rowRequests: seq<Request>)

  /** The loop's invariant: each sheet's header list is its fetched headers
      followed by the names recorded for it, which are new and distinct. */
  ghost predicate Consistent(fetched: map<SheetId, seq<string>>, p: Progress)
  {
    && p.headers.Keys == fetched.Keys
    && WellKept(p.newHeaders)
    && p.newHeaders.names.Keys <= fetched.Keys
    && (forall id :: id in fetched ==> p.headers[id] == fetched[id] + Added(p.newHeaders, id))
    && (forall id :: id in fetched ==> Fresh(fetched[id], Added(p.newHeaders, id)))
  }

  /** One iteration of the per-row loop. It fails exactly when the row's
      sheet has no header list; otherwise it keeps the set of sheets and
      adds one `appendCells` for the row's sheet after the earlier ones. */
  function Step(p: Progress, row: AppendRow, show: Value -> string): (r: Result<Progress, BatchError>)
    ensures r.Success? <==> row.sheetId in p.headers
    ensures r.Failure? ==> r.error == UnknownSheet(row.sheetId)
    ensures r.Success? ==>
              && r.value.headers.Keys == p.headers.Keys
              && |r.value.rowRequests| == |p.rowRequests| + 1
              && r.value.rowRequests[..|p.rowRequests|] == p.rowRequests
              && r.value.rowRequests[|p.rowRequests|].AppendCells?
              && r.value.rowRequests[|p.rowRequests|].sheetId == row.sheetId
  {
    if row.sheetId !in p.headers then
      Failure(UnknownSheet(row.sheetId))
    else
      var m := Merge(p.headers[row.sheetId], Flatten(row.data));
      Success(Progress(
        p.headers[row.sheetId := m.headers],
        Record(p.newHeaders, row.sheetId, m.added),
        p.rowRequests + [AppendRowRequest(row.sheetId, m.values, show)]))
  }

  /** What one iteration does to the sheets: only the row's sheet changes.
      Its headers grow at the end, every name they gain is recorded for it,
      and the row's `appendCells` has one cell per header. */
  lemma StepEffect(p: Progress, row: AppendRow, show: Value -> string)
    requires row.sheetId in p.headers
    ensures
      var id, q := row.sheetId, Step(p, row, show).value;
      && (forall other :: other in p.headers && other != id ==> q.headers[other] == p.headers[other])
      && p.headers[id] <= q.headers[id]
      && Added(q.newHeaders, id) == Added(p.newHeaders, id) + q.headers[id][|p.headers[id]|..]
      && (forall other :: other != id ==> Added(q.newHeaders, other) == Added(p.newHeaders, other))
      && |q.rowRequests[|p.rowRequests|].rows| == 1
      && |q.rowRequests[|p.rowRequests|].rows[0].values| == |q.headers[id]|
  {
  }

  /** Names new to a list that already extends `fetched` by fresh names keep
      the extension fresh. */
  lemma FreshExtend(fetched: seq<string>, a: seq<string>, more: seq<string>)
    requires Fresh(fetched, a)
    requires Fresh(fetched + a, more)
    ensures Fresh(fetched, a + more)
  {
    var s := a + more;
    forall i, j | 0 <= i < j < |s| ensures s[i] != s[j] {
      if i < |a| && j >= |a| {
        assert s[i] in fetched + a && s[j] in more;
      } else if i >= |a| {
        assert s[i] == more[i - |a|] && s[j] == more[j - |a|];
      }
    }
    forall f | f in s ensures f !in fetched {
      if f in more {
        assert f !in fetched + a;
      }
    }
  }

  /** The per-sheet part of the invariant. */
  ghost predicate SheetsExtend(fetched: map<SheetId, seq<string>>, headers: map<SheetId, seq<string>>, nh: NewHeaders)
  {
    && headers.Keys == fetched.Keys
    && (forall id :: id in fetched ==> headers[id] == fetched[id] + Added(nh, id))
    && (forall id :: id in fetched ==> Fresh(fetched[id], Added(nh, id)))
  }

  lemma SheetsExtendStep(fetched: map<SheetId, seq<string>>, headers: map<SheetId, seq<string>>, nh: NewHeaders, id: SheetId, added: seq<string>)
    requires SheetsExtend(fetched, headers, nh)
    requires id in fetched
    requires Fresh(headers[id], added)
    ensures SheetsExtend(fetched, headers[id := headers[id] + added], Record(nh, id, added))
  {
    var hs, nh' := headers[id := headers[id] + added], Record(nh, id, added);
    assert hs.Keys == fetched.Keys;
    HeadersExtendStep(fetched, headers, nh, id, added);
    FreshStep(fetched, headers, nh, id, added);
    assert forall other :: other in fetched ==> hs[other] == fetched[other] + Added(nh', other);
  }

  lemma HeadersExtendStep(fetched: map<SheetId, seq<string>>, headers: map<SheetId, seq<string>>, nh: NewHeaders, id: SheetId, added: seq<string>)
    requires headers.Keys == fetched.Keys
    requires forall other :: other in fetched ==> headers[other] == fetched[other] + Added(nh, other)
    requires id in fetched
    ensures forall other :: other in fetched ==>
              headers[id := headers[id] + added][other] == fetched[other] + Added(Record(nh, id, added), other)
  {
    var nh' := Record(nh, id, added);
    assert Added(nh', id) == Added(nh, id) + added;
    forall other | other in fetched
      ensures headers[id := headers[id] + added][other] == fetched[other] + Added(nh', other)
    {
      if other != id {
        assert Added(nh', other) == Added(nh, other);
      }
    }
  }

  lemma FreshStep(fetched: map<SheetId, seq<string>>, headers: map<SheetId, seq<string>>, nh: NewHeaders, id: SheetId, added: seq<string>)
    requires id in fetched && id in headers
    requires headers[id] == fetched[id] + Added(nh, id)
    requires forall other :: other in fetched ==> Fresh(fetched[other], Added(nh, other))
    requires Fresh(headers[id], added)
    ensures forall other :: other in fetched ==> Fresh(fetched[other], Added(Record(nh, id, added), other))
  {
    var nh' := Record(nh, id, added);
    assert Added(nh', id) == Added(nh, id) + added;
    FreshExtend(fetched[id], Added(nh, id), added);
    forall other | other in fetched
      ensures Fresh(fetched[other], Added(nh', other))
    {
      if other != id {
        assert Added(nh', other) == Added(nh, other);
      }
    }
  }

  /** Growing one sheet's headers by names new to it keeps the invariant. */
  lemma ExtendConsistent(fetched: map<SheetId, seq<string>>, p: Progress, id: SheetId, added: seq<string>, req: Request)
    requires Consistent(fetched, p)
    requires id in fetched
    requires Fresh(p.headers[id], added)
    ensures Consistent(fetched, Progress(p.headers[id := p.headers[id] + added], Record(p.newHeaders, id, added), p.rowRequests + [req]))
  {
    assert SheetsExtend(fetched, p.headers, p.newHeaders);
    SheetsExtendStep(fetched, p.headers, p.newHeaders, id, added);
    var nh := Record(p.newHeaders, id, added);
    assert WellKept(nh);
    assert nh.names.Keys <= fetched.Keys;
  }

  /** One iteration of the per-row loop keeps the invariant. */
  lemma StepConsistent(fetched: map<SheetId, seq<string>>, p: Progress, row: AppendRow, show: Value -> string)
    requires Consistent(fetched, p)
    requires row.sheetId in fetched
    ensures Step(p, row, show).Success?
    ensures Consistent(fetched, Step(p, row, show).value)
  {
    var h := p.headers[row.sheetId];
    var flat := Flatten(row.data);
    var m := Merge(h, flat);
    MergeAdded(h, flat);
    assert Fresh(h, m.added);
    ExtendConsistent(fetched, p, row.sheetId, m.added, AppendRowRequest(row.sheetId, m.values, show));
  }

  /** Every row of the batch names a sheet whose headers were fetched. */
  predicate AllKnown(batch: seq<AppendRow>, fetched: map<SheetId, seq<string>>)
  {
    forall i :: 0 <= i < |batch| ==> batch[i].sheetId in fetched
  }

  /** A batch whose rows are all known has only known prefixes, and a
      prefix of a prefix is a prefix. */
  lemma KnownPrefix(batch: seq<AppendRow>, k: nat, fetched: map<SheetId, seq<string>>)
    requires k <= |batch|
    ensures AllKnown(batch, fetched) ==> AllKnown(batch[..k], fetched)
    ensures forall i :: 0 <= i <= k ==> batch[..k][..i] == batch[..i]
  {
    if AllKnown(batch, fetched) {
      forall i | 0 <= i < k ensures batch[..k][i].sheetId in fetched {
        assert batch[..k][i] == batch[i];
      }
    }
  }

  /** The per-row loop over a whole batch. It stops at the first row whose
      sheet was not fetched, with that sheet's `KeyError`; otherwise it
      yields one `appendCells` per row, in batch order. */
  function Run(batch: seq<AppendRow>, fetched: map<SheetId, seq<string>>, show: Value -> string): (r: Result<Progress, BatchError>)
    ensures r.Success? <==> AllKnown(batch, fetched)
    ensures r.Failure? ==> exists i ::
              && 0 <= i < |batch| && AllKnown(batch[..i], fetched) && batch[i].sheetId !in fetched
              && r.error == UnknownSheet(batch[i].sheetId)
    ensures r.Success? ==> r.value.headers.Keys == fetched.Keys
    ensures r.Success? ==> |r.value.rowRequests| == |batch|
    ensures r.Success? ==> forall i :: 0 <= i < |batch| ==>
              r.value.rowRequests[i].AppendCells? && r.value.rowRequests[i].sheetId == batch[i].sheetId
    decreases |batch|
  {
    if |batch| == 0 then
      Success(Progress(fetched, NewHeaders([], map[]), []))
    else
      var n := |batch|;
      var row := batch[n - 1];
      assert batch == batch[..n - 1] + [row];
      match Run(batch[..n - 1], fetched, show)
      case Failure(e) =>
        KnownPrefix(batch, n - 1, fetched);
        Failure(e)
      case Success(p) =>
        if row.sheetId in fetched then
          StepRun(batch, fetched, show, p);
          Step(p, row, show)
        else
          assert batch[n - 1].sheetId !in fetched;
          Failure(UnknownSheet(row.sheetId))
  }

  /** The last row of a batch whose earlier rows all ran and whose own sheet
      is known extends the run by its `appendCells`. */
  lemma StepRun(batch: seq<AppendRow>, fetched: map<SheetId, seq<string>>, show: Value -> string, p: Progress)
    requires |batch| > 0 && batch[|batch| - 1].sheetId in fetched
    requires AllKnown(batch[..|batch| - 1], fetched)
    requires p.headers.Keys == fetched.Keys
    requires |p.rowRequests| == |batch| - 1
    requires forall i :: 0 <= i < |batch| - 1 ==>
               p.rowRequests[i].AppendCells? && p.rowRequests[i].sheetId == batch[i].sheetId
    ensures AllKnown(batch, fetched)
    ensures
      var q := Step(p, batch[|batch| - 1], show);
      && q.Success?
      && q.value.headers.Keys == fetched.Keys
      && |q.value.rowRequests| == |batch|
      && forall i :: 0 <= i < |batch| ==>
           q.value.rowRequests[i].AppendCells? && q.value.rowRequests[i].sheetId == batch[i].sheetId
  {
    var n := |batch|;
    forall i | 0 <= i < n ensures batch[i].sheetId in fetched {
      if i < n - 1 {
        assert batch[..n - 1][i] == batch[i];
      }
    }
    var q := Step(p, batch[n - 1], show).value;
    forall i | 0 <= i < n
      ensures q.rowRequests[i].AppendCells? && q.rowRequests[i].sheetId == batch[i].sheetId
    {
      if i < n - 1 {
        assert q.rowRequests[i] == q.rowRequests[..n - 1][i];
      }
    }
  }

  /** The loop keeps its invariant over the whole batch. */
  lemma {:induction false} RunConsistent(batch: seq<AppendRow>, fetched: map<SheetId, seq<string>>, show: Value -> string)
    requires AllKnown(batch, fetched)
    ensures Consistent(fetched, Run(batch, fetched, show).value)
    decreases |batch|
  {
    if |batch| > 0 {
      var n := |batch|;
      assert AllKnown(batch[..n - 1], fetched);
      RunConsistent(batch[..n - 1], fetched, show);
      StepConsistent(fetched, Run(batch[..n - 1], fetched, show).value, batch[n - 1], show);
    }
  }

  /** The header requests, one pair per sheet in `new_headers` order: add as
      many columns as the sheet gained, then rewrite its whole header row. */
  function HeaderRequests(order: seq<SheetId>, nh: NewHeaders, headers: map<SheetId, seq<string>>, show: Value -> string): (reqs: seq<Request>)
    requires forall k :: 0 <= k < |order| ==> order[k] in headers
    ensures |reqs| == 2 * |order|
    ensures forall k :: 0 <= k < |reqs| ==> !reqs[k].AppendCells?
    ensures forall k :: 0 <= k < |order| ==>
              && reqs[2 * k] == AddColumnsRequest(order[k], |Added(nh, order[k])|)
              && reqs[2 * k + 1] == UpdateHeadersRequest(order[k], headers[order[k]], show)
    decreases |order|
  {
    if |order| == 0 then
      []
    else
      [AddColumnsRequest(order[0], |Added(nh, order[0])|), UpdateHeadersRequest(order[0], headers[order[0]], show)]
        + HeaderRequests(order[1..], nh, headers, show)
  }

  /** The `batch_update` call: its requests and its two response options. */
  datatype BatchUpdate = BatchUpdate(requests: seq<Request>, includeSpreadsheetInResponse: bool, responseIncludeGridData: bool)

  /** What `append_batch` leaves behind: the final header list of each
      sheet, the names each sheet gained, and the one update it sends, if
      any. */
  datatype Plan = Plan(headers: map<SheetId, seq<string>>, newHeaders: NewHeaders, update: Option<BatchUpdate>)

  /** Every sheet in `new_headers` has a header list. */
  predicate Covered(p: Progress)
  {
    forall k :: 0 <= k < |p.newHeaders.order| ==> p.newHeaders.order[k] in p.headers
  }

  lemma RunCovered(batch: seq<AppendRow>, fetched: map<SheetId, seq<string>>, show: Value -> string)
    requires AllKnown(batch, fetched)
    ensures Covered(Run(batch, fetched, show).value)
  {
    RunConsistent(batch, fetched, show);
  }

  /** The request list: header requests first, then the row requests, sent
      in one update only when the list is not empty. */
  function Assemble(p: Progress, show: Value -> string): (u: Option<BatchUpdate>)
    requires Covered(p)
    ensures u.Some? <==> |p.newHeaders.order| > 0 || |p.rowRequests| > 0
    ensures u.Some? ==>
              var h := 2 * |p.newHeaders.order|;
              && !u.value.includeSpreadsheetInResponse && !u.value.responseIncludeGridData
              && |u.value.requests| == h + |p.rowRequests|
              && u.value.requests == HeaderRequests(p.newHeaders.order, p.newHeaders, p.headers, show) + p.rowRequests
              && (forall k :: 0 <= k < h ==> !u.value.requests[k].AppendCells?)
  {
    var headerRequests := HeaderRequests(p.newHeaders.order, p.newHeaders, p.headers, show);
    var requests := headerRequests + p.rowRequests;
    assert forall k :: 0 <= k < |headerRequests| ==> requests[k] == headerRequests[k];
    if |requests| == 0 then None else Some(BatchUpdate(requests, false, false))
  }

  /** `append_batch` from the fetched header rows on. It fails with the
      first row whose sheet was not fetched; otherwise it sends an update
      exactly when the batch is not empty. */
  function AppendBatch(batch: seq<AppendRow>, fetched: map<SheetId, seq<string>>, show: Value -> string): (r: Result<Plan, BatchError>)
    ensures r.Success? <==> AllKnown(batch, fetched)
    ensures r.Failure? ==> exists i ::
              && 0 <= i < |batch| && AllKnown(batch[..i], fetched) && batch[i].sheetId !in fetched
              && r.error == UnknownSheet(batch[i].sheetId)
    ensures r.Success? ==> (r.value.update.Some? <==> |batch| > 0)
  {
    match Run(batch, fetched, show)
    case Failure(e) => Failure(e)
    case Success(p) =>
      RunCovered(batch, fetched, show);
      Success(Plan(p.headers, p.newHeaders, Assemble(p, show)))
  }

  /** In the update, every header request precedes every `appendCells`, and
      there is exactly one `appendCells` per batch row, in batch order. */
  lemma RequestOrder(batch: seq<AppendRow>, fetched: map<SheetId, seq<string>>, show: Value -> string)
    requires AllKnown(batch, fetched)
    requires |batch| > 0
    ensures
      var plan := AppendBatch(batch, fetched, show).value;
      var u, h := plan.update.value, 2 * |plan.newHeaders.order|;
      && !u.includeSpreadsheetInResponse && !u.responseIncludeGridData
      && |u.requests| == h + |batch|
      && (forall k :: 0 <= k < h ==> !u.requests[k].AppendCells?)
      && (forall i :: 0 <= i < |batch| ==>
            u.requests[h + i].AppendCells? && u.requests[h + i].sheetId == batch[i].sheetId)
  {
    AppendBatchPlan(batch, fetched, show);
    AssembleOrder(Run(batch, fetched, show).value, show, batch);
  }

  /** `RequestOrder` for the loop's final state. */
  lemma AssembleOrder(p: Progress, show: Value -> string, batch: seq<AppendRow>)
    requires Covered(p)
    requires |p.rowRequests| == |batch| > 0
    requires forall i :: 0 <= i < |batch| ==>
               p.rowRequests[i].AppendCells? && p.rowRequests[i].sheetId == batch[i].sheetId
    ensures
      var u, h := Assemble(p, show).value, 2 * |p.newHeaders.order|;
      && !u.includeSpreadsheetInResponse && !u.responseIncludeGridData
      && |u.requests| == h + |batch|
      && (forall k :: 0 <= k < h ==> !u.requests[k].AppendCells?)
      && (forall i :: 0 <= i < |batch| ==>
            u.requests[h + i].AppendCells? && u.requests[h + i].sheetId == batch[i].sheetId)
  {
  }

  /** The plan of a batch whose rows are all known, in terms of the loop's
      final state. */
  lemma AppendBatchPlan(batch: seq<AppendRow>, fetched: map<SheetId, seq<string>>, show: Value -> string)
    requires AllKnown(batch, fetched)
    ensures Covered(Run(batch, fetched, show).value)
    ensures
      var p := Run(batch, fetched, show).value;
      AppendBatch(batch, fetched, show) == Success(Plan(p.headers, p.newHeaders, Assemble(p, show)))
  {
    RunCovered(batch, fetched, show);
  }

  /** Each sheet's final header list is its fetched one followed by the
      names it gained, none of them already there and none twice; a sheet is
      listed in `new_headers` exactly when it gained a column, and once. */
  lemma PlanHeaders(batch: seq<AppendRow>, fetched: map<SheetId, seq<string>>, show: Value -> string)
    requires AllKnown(batch, fetched)
    ensures
      var plan := AppendBatch(batch, fetched, show).value;
      && plan.headers.Keys == fetched.Keys
      && NoDuplicates(plan.newHeaders.order)
      && (forall id :: id in fetched ==> plan.headers[id] == fetched[id] + Added(plan.newHeaders, id))
      && (forall id :: id in fetched ==> Fresh(fetched[id], Added(plan.newHeaders, id)))
      && (forall id :: id in plan.newHeaders.order <==> id in fetched && |Added(plan.newHeaders, id)| > 0)
  {
    RunConsistent(batch, fetched, show);
  }

  /** For the `k`-th sheet in `new_headers`, the update opens with one
      `appendDimension` whose length is the number of names the sheet gained,
      followed by one `updateCells` writing the sheet's full final header
      list from row 0, column 0. */
  lemma HeaderRequestsPerSheet(batch: seq<AppendRow>, fetched: map<SheetId, seq<string>>, show: Value -> string)
    requires AllKnown(batch, fetched)
    ensures
      var plan := AppendBatch(batch, fetched, show).value;
      var order := plan.newHeaders.order;
      forall k :: 0 <= k < |order| ==>
        && plan.update.Some?
        && order[k] in plan.headers
        && plan.update.value.requests[2 * k] == AppendDimension(order[k], Columns, |Added(plan.newHeaders, order[k])|)
        && plan.update.value.requests[2 * k + 1] == UpdateHeadersRequest(order[k], plan.headers[order[k]], show)
  {
    var p := Run(batch, fetched, show).value;
    RunCovered(batch, fetched, show);
    assert AppendBatch(batch, fetched, show).value == Plan(p.headers, p.newHeaders, Assemble(p, show));
    forall k | 0 <= k < |p.newHeaders.order|
      ensures
        var id, u := p.newHeaders.order[k], Assemble(p, show);
        && u.Some?
        && id in p.headers
        && u.value.requests[2 * k] == AppendDimension(id, Columns, |Added(p.newHeaders, id)|)
        && u.value.requests[2 * k + 1] == UpdateHeadersRequest(id, p.headers[id], show)
    {
      AssembleHeaderAt(p, show, k);
    }
  }

  lemma AssembleHeaderAt(p: Progress, show: Value -> string, k: nat)
    requires Covered(p)
    requires k < |p.newHeaders.order|
    ensures
      var id, u := p.newHeaders.order[k], Assemble(p, show);
      && u.Some?
      && u.value.requests[2 * k] == AppendDimension(id, Columns, |Added(p.newHeaders, id)|)
      && u.value.requests[2 * k + 1] == UpdateHeadersRequest(id, p.headers[id], show)
  {
    var order := p.newHeaders.order;
    var u := Assemble(p, show).value;
    var hr := HeaderRequests(order, p.newHeaders, p.headers, show);
    assert u.requests[2 * k] == hr[2 * k];
    assert u.requests[2 * k + 1] == hr[2 * k + 1];
  }

  /** Running a prefix of the batch is an earlier stage of running all of
      it: the row requests so far are kept, and every sheet's headers only
      grow at the end. */
  lemma {:induction false} RunPrefix(batch: seq<AppendRow>, fetched: map<SheetId, seq<string>>, show: Value -> string, k: nat)
    requires AllKnown(batch, fetched)
    requires k <= |batch|
    ensures AllKnown(batch[..k], fetched)
    ensures
      var before, after := Run(batch[..k], fetched, show).value, Run(batch, fetched, show).value;
      && before.rowRequests <= after.rowRequests
      && forall id :: id in fetched ==> before.headers[id] <= after.headers[id]
    decreases |batch|
  {
    if k == |batch| {
      assert batch[..k] == batch;
    } else {
      var n := |batch|;
      var init := batch[..n - 1];
      assert init[..k] == batch[..k];
      RunLast(batch, fetched, show);
      RunPrefix(init, fetched, show, k);
      var before, p := Run(batch[..k], fetched, show).value, Run(init, fetched, show).value;
      StepEffect(p, batch[n - 1], show);
      var after := Run(batch, fetched, show).value;
      assert p.rowRequests <= after.rowRequests;
      forall id | id in fetched
        ensures before.headers[id] <= after.headers[id]
      {
        assert id in p.headers;
        if id != batch[n - 1].sheetId {
          assert after.headers[id] == p.headers[id];
        }
      }
    }
  }

  /** A non-empty batch is run as its rows but the last, then the last. */
  lemma RunLast(batch: seq<AppendRow>, fetched: map<SheetId, seq<string>>, show: Value -> string)
    requires AllKnown(batch, fetched)
    requires |batch| > 0
    ensures AllKnown(batch[..|batch| - 1], fetched)
    ensures Run(batch, fetched, show).value
              == Step(Run(batch[..|batch| - 1], fetched, show).value, batch[|batch| - 1], show).value
  {
  }

  /** The request row `i` leaves is its alignment against the headers the
      earlier rows left. */
  lemma RowRequestAt(batch: seq<AppendRow>, fetched: map<SheetId, seq<string>>, show: Value -> string, i: nat)
    requires AllKnown(batch, fetched)
    requires i < |batch|
    ensures AllKnown(batch[..i], fetched)
    ensures
      var id, before := batch[i].sheetId, Run(batch[..i], fetched, show).value;
      && id in before.headers
      && Run(batch, fetched, show).value.rowRequests[i]
           == AppendRowRequest(id, Merge(before.headers[id], Flatten(batch[i].data)).values, show)
      && Merge(before.headers[id], Flatten(batch[i].data)).headers <= Run(batch, fetched, show).value.headers[id]
  {
    RunPrefix(batch, fetched, show, i + 1);
    RunAt(batch, fetched, show, i);
    var before := Run(batch[..i], fetched, show).value;
    var m := Merge(before.headers[batch[i].sheetId], Flatten(batch[i].data));
    var after := Run(batch[..i + 1], fetched, show).value;
    assert after.rowRequests[i] == AppendRowRequest(batch[i].sheetId, m.values, show);
    assert after.headers[batch[i].sheetId] == m.headers;
  }

  /** Running the batch up to row `i` and then row `i` is running it up to
      the row after. */
  lemma RunAt(batch: seq<AppendRow>, fetched: map<SheetId, seq<string>>, show: Value -> string, i: nat)
    requires AllKnown(batch, fetched)
    requires i < |batch|
    ensures AllKnown(batch[..i], fetched) && AllKnown(batch[..i + 1], fetched)
    ensures Run(batch[..i + 1], fetched, show) == Step(Run(batch[..i], fetched, show).value, batch[i], show)
  {
    KnownPrefix(batch, i + 1, fetched);
    KnownPrefix(batch, i, fetched);
    assert batch[..i + 1][..i] == batch[..i];
  }

  /** Row `i` is aligned against its sheet's headers as earlier rows of the
      batch left them: the fetched list followed by every name earlier rows
      added, a prefix of the sheet's final list. A name an earlier row added
      is therefore matched and never added again. */
  lemma RowsSeeEarlierColumns(batch: seq<AppendRow>, fetched: map<SheetId, seq<string>>, show: Value -> string, i: nat)
    requires AllKnown(batch, fetched)
    requires i < |batch|
    ensures AllKnown(batch[..i], fetched)
    ensures
      var id, flat := batch[i].sheetId, Flatten(batch[i].data);
      var before := Run(batch[..i], fetched, show).value;
      var seen := before.headers[id];
      var plan := AppendBatch(batch, fetched, show).value;
      && seen == fetched[id] + Added(before.newHeaders, id)
      && seen <= plan.headers[id]
      && Merge(seen, flat).headers <= plan.headers[id]
      && (forall f :: f in Added(before.newHeaders, id) ==> f !in Merge(seen, flat).added)
      && plan.update.Some?
      && plan.update.value.requests[2 * |plan.newHeaders.order| + i]
           == AppendRowRequest(id, Merge(seen, flat).values, show)
  {
    var id, flat := batch[i].sheetId, Flatten(batch[i].data);
    RunPrefix(batch, fetched, show, i);
    RowRequestAt(batch, fetched, show, i);
    RunConsistent(batch[..i], fetched, show);
    var seen := Run(batch[..i], fetched, show).value.headers[id];
    MergeAdded(seen, flat);
    var p := Run(batch, fetched, show).value;
    RunCovered(batch, fetched, show);
    var u := Assemble(p, show);
    assert AppendBatch(batch, fetched, show).value == Plan(p.headers, p.newHeaders, u);
    assert u.value.requests[2 * |p.newHeaders.order| + i] == p.rowRequests[i];
  }

  /** `req` writes the row `flat` as seen under the header list `h`: a cell
      under the column of each of the row's fields holding the field's
      value (its last one), with a date format exactly when that value is a
      date, and an unformatted blank under every column the row does not
      write. The row may stop short of `h`'s later columns. */
  predicate Lands(req: Request, h: seq<string>, flat: seq<(string, Value)>, show: Value -> string)
  {
    && req.AppendCells? && |req.rows| == 1
    && |req.rows[0].values| <= |h|
    && (forall f :: f in Fields(flat) ==>
          && f in h && Pos(h, f) < |req.rows[0].values|
          && Decode(req.rows[0].values[Pos(h, f)]) == Shown(LastValue(flat, f), show)
          && (req.rows[0].values[Pos(h, f)].userEnteredFormat.Some? <==> LastValue(flat, f).Date?))
    && (forall j :: 0 <= j < |req.rows[0].values| && !Written(h, flat, j) ==>
          Decode(req.rows[0].values[j]) == Blank && req.rows[0].values[j].userEnteredFormat.None?)
  }

  /** A row aligned against a prefix of `h` lands correctly under `h`: the
      columns added after it do not move its fields' first columns. */
  lemma AlignedRowLands(seen: seq<string>, flat: seq<(string, Value)>, h: seq<string>, id: SheetId, show: Value -> string)
    requires Merge(seen, flat).headers <= h
    ensures Lands(AppendRowRequest(id, Merge(seen, flat).values, show), h, flat, show)
  {
    var m := Merge(seen, flat);
    var cells := AppendRowRequest(id, m.values, show).rows[0].values;
    MergePlacesFields(seen, flat);
    forall f | f in Fields(flat)
      ensures f in h && Pos(h, f) == Pos(m.headers, f)
    {
      IndexOfPrefix(m.headers, h, f);
    }
    forall j | 0 <= j < |cells| && !Written(h, flat, j)
      ensures Decode(cells[j]) == Blank && cells[j].userEnteredFormat.None?
    {
      assert h[j] == m.headers[j];
      IndexOfPrefix(m.headers, h, h[j]);
      assert !Written(m.headers, flat, j);
    }
  }

  /** Every row of the batch lands under its sheet's final header list:
      the `appendCells` it sends puts each of its fields' values in the
      column of that name the header row ends up with, and blanks
      elsewhere, although later rows may have added columns. */
  lemma RowCells(batch: seq<AppendRow>, fetched: map<SheetId, seq<string>>, show: Value -> string, i: nat)
    requires AllKnown(batch, fetched)
    requires i < |batch|
    ensures
      var id, plan := batch[i].sheetId, AppendBatch(batch, fetched, show).value;
      && id in plan.headers
      && plan.update.Some?
      && 2 * |plan.newHeaders.order| + i < |plan.update.value.requests|
      && Lands(plan.update.value.requests[2 * |plan.newHeaders.order| + i], plan.headers[id], Flatten(batch[i].data), show)
  {
    var id, flat := batch[i].sheetId, Flatten(batch[i].data);
    RowsSeeEarlierColumns(batch, fetched, show, i);
    RequestOrder(batch, fetched, show);
    var seen := Run(batch[..i], fetched, show).value.headers[id];
    AlignedRowLands(seen, flat, AppendBatch(batch, fetched, show).value.headers[id], id, show);
  }
}
