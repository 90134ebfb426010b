/** The download queue of the web application (`web/lib/queue.ts`) over the
    `downloads` table (`web/lib/db.ts`). The table is a sequence of rows in
    rowid order together with the next AUTOINCREMENT id; SQLite statements
    become updates of that sequence, and a transaction is one method call.
    `Date.now()` is the `now` parameter, and the download a drain loop runs
    is an oracle. */
module Queue {
  import opened Wrappers
  import opened Text
  import opened WebUrl
  import opened Download

  datatype Status = Queued | Running | Done | Failed

  /** A row of the `downloads` table; a SQL NULL is `None`. */
  datatype Row = Row(
    id: nat,
    url: string,
    filename: Option<string>,
    format: Option<string>,
    outputPath: Option<string>,
    status: Status,
    createdAt: int,
    updatedAt: int,
    startedAt: Option<int>,
    finishedAt: Option<int>,
    error: Option<string>,
    logs: Option<string>)

  /** What `enqueueDownload` answers; `None` stands for an absent field. */
  datatype QueueResult = QueueResult(
    accepted: bool, message: string, taskId: Option<nat>, status: Option<Status>, httpStatus: int)

  /** The columns `takeNextTask` hands to the drain loop. */
  datatype StoredTask = StoredTask(id: nat, url: string, filename: Option<string>, format: Option<string>)

  const EnqueuedMessage := "任务已入队，将依次下载。"
  const RequeuedMessage := "任务已重新入队。"
  const AlreadyDoneMessage := "该链接已下载过，如需重新下载请清理记录。"
  const AlreadyQueuedMessage := "该链接已在队列中。"

  /** The default `limit` of `truncateLogs`. */
  const LogLimit := 12000

  /** The table's constraints: AUTOINCREMENT ids are positive, increase in
      rowid order and stay below the next id to hand out; `url` is UNIQUE. */
  predicate TableValid(rows: seq<Row>, nextId: nat) {
    && 0 < nextId
    && (forall i :: 0 <= i < |rows| ==> 0 < rows[i].id < nextId)
    && (forall i, j :: 0 <= i < j < |rows| ==> rows[i].id < rows[j].id)
    && (forall i, j :: 0 <= i < j < |rows| ==> rows[i].url != rows[j].url)
  }

  /** `SELECT … WHERE url = ?`: the position of the row holding `url`. */
  function FindUrl(rows: seq<Row>, url: string): (r: Option<nat>)
    ensures r.Some? ==> r.value < |rows| && rows[r.value].url == url
    ensures r.None? <==> forall k :: 0 <= k < |rows| ==> rows[k].url != url
  {
    if rows == [] then None
    else
      match FindUrl(rows[..|rows| - 1], url)
      case Some(i) => Some(i)
      case None => if rows[|rows| - 1].url == url then Some(|rows| - 1) else None
  }

  /** `… WHERE id = ?`: the position of the row with that id. */
  function FindId(rows: seq<Row>, id: nat): (r: Option<nat>)
    ensures r.Some? ==> r.value < |rows| && rows[r.value].id == id
    ensures r.None? <==> forall k :: 0 <= k < |rows| ==> rows[k].id != id
  {
    if rows == [] then None
    else
      match FindId(rows[..|rows| - 1], id)
      case Some(i) => Some(i)
      case None => if rows[|rows| - 1].id == id then Some(|rows| - 1) else None
  }

  /** In a valid table, looking up a row's id finds that row. */
  lemma FindOwnId(rows: seq<Row>, nextId: nat, i: nat)
    requires TableValid(rows, nextId) && i < |rows|
    ensures FindId(rows, rows[i].id) == Some(i)
  {
  }

  /** In a valid table, looking up a row's url finds that row. */
  lemma FindOwnUrl(rows: seq<Row>, nextId: nat, i: nat)
    requires TableValid(rows, nextId) && i < |rows|
    ensures FindUrl(rows, rows[i].url) == Some(i)
  {
  }

  /** The row `enqueueDownload` inserts for a URL it has not seen. */
  function NewRow(id: nat, n: NormalizedRequest, now: int): (row: Row)
    ensures row.id == id && row.url == n.url && row.filename == n.filename && row.format == n.format
    ensures row.status == Queued && row.createdAt == now && row.updatedAt == now
    ensures row.outputPath.None? && row.startedAt.None? && row.finishedAt.None?
    ensures row.error.None? && row.logs.None?
  {
    Row(id, n.url, n.filename, n.format, None, Queued, now, now, None, None, None, None)
  }

  /** A failed row queued again: new filename and format, output, error and
      logs cleared; its id, url, creation time, and its start and finish
      times are kept. */
  function RequeuedRow(row: Row, n: NormalizedRequest, now: int): (r: Row)
    ensures r.id == row.id && r.url == row.url && r.createdAt == row.createdAt
    ensures r.startedAt == row.startedAt && r.finishedAt == row.finishedAt
    ensures r.status == Queued && r.updatedAt == now
    ensures r.filename == n.filename && r.format == n.format
    ensures r.outputPath.None? && r.error.None? && r.logs.None?
  {
    row.(status := Queued, filename := n.filename, format := n.format, outputPath := None,
         updatedAt := now, error := None, logs := None)
  }

  /** The row `takeNextTask` claims. */
  function ClaimedRow(row: Row, now: int): (r: Row)
    ensures r.status == Running && r.startedAt == Some(now) && r.updatedAt == now
    ensures r.id == row.id && r.url == row.url && r.filename == row.filename && r.format == row.format
    ensures r.createdAt == row.createdAt && r.error == row.error && r.logs == row.logs
    ensures r.outputPath == row.outputPath && r.finishedAt == row.finishedAt
  {
    row.(status := Running, startedAt := Some(now), updatedAt := now)
  }

  /** The row `finalizeTask` writes: done exactly when the download succeeded,
      the error message only on failure, the output path only on success. */
  function FinalizedRow(row: Row, result: DownloadResult, now: int): (r: Row)
    ensures r.id == row.id && r.url == row.url && r.createdAt == row.createdAt
    ensures r.filename == row.filename && r.format == row.format && r.startedAt == row.startedAt
    ensures r.status == Done <==> result.ok
    ensures r.status == Failed <==> !result.ok
    ensures r.error.None? <==> result.ok
    ensures !result.ok ==> r.error == Some(result.message) && r.outputPath.None?
    ensures result.ok ==> r.outputPath == result.outputPath
    ensures r.finishedAt == Some(now) && r.updatedAt == now
    ensures r.logs == TruncateLogs(result.logs, LogLimit)
  {
    row.(status := if result.ok then Done else Failed, finishedAt := Some(now), updatedAt := now,
         error := if result.ok then None else Some(result.message),
         logs := TruncateLogs(result.logs, LogLimit),
         outputPath := if result.ok then result.outputPath else None)
  }

  /** The columns of a row handed to the drain loop. */
  function TaskOf(row: Row): StoredTask {
    StoredTask(row.id, row.url, row.filename, row.format)
  }

  /** `truncateLogs`: nothing for no logs; otherwise the concatenated logs,
      cut to their last `limit` characters. */
  function TruncateLogs(logs: seq<string>, limit: nat): (r: Option<string>)
    ensures r.None? <==> logs == []
    ensures r.Some? ==> EndsWith(Concat(logs), r.value)
    ensures r.Some? ==> |r.value| == if |Concat(logs)| <= limit then |Concat(logs)| else limit
  {
    if |logs| == 0 then None
    else
      var joined := Concat(logs);
      if |joined| <= limit then Some(joined) else Some(joined[|joined| - limit..])
  }

  /** Logs that fit are kept whole. */
  lemma TruncateLogsShort(logs: seq<string>, limit: nat)
    requires logs != [] && |Concat(logs)| <= limit
    ensures TruncateLogs(logs, limit) == Some(Concat(logs))
  {
    var joined := Concat(logs);
    assert joined[|joined| - |joined|..] == joined;
  }

  /** `SELECT … WHERE status = 'queued' ORDER BY created_at LIMIT 1`: the
      queued row created first, the first in rowid order among rows created
      at the same time. */
  function OldestQueued(rows: seq<Row>): (r: Option<nat>)
    ensures r.None? <==> forall k :: 0 <= k < |rows| ==> rows[k].status != Queued
    ensures r.Some? ==> r.value < |rows| && rows[r.value].status == Queued
    ensures r.Some? ==> forall k :: 0 <= k < |rows| && rows[k].status == Queued
                                    ==> rows[r.value].createdAt <= rows[k].createdAt
    ensures r.Some? ==> forall k :: 0 <= k < r.value && rows[k].status == Queued
                                    ==> rows[r.value].createdAt < rows[k].createdAt
  {
    if rows == [] then None
    else
      var last := |rows| - 1;
      var init := rows[..last];
      assert forall k :: 0 <= k < last ==> init[k] == rows[k];
      match OldestQueued(init)
      case None => if rows[last].status == Queued then Some(last) else None
      case Some(i) =>
        if rows[last].status == Queued && rows[last].createdAt < rows[i].createdAt then Some(last)
        else Some(i)
  }

  /** The number of queued rows: what a drain loop still has to do. */
  function QueuedCount(rows: seq<Row>): nat {
    if rows == [] then 0
    else QueuedCount(rows[..|rows| - 1]) + (if rows[|rows| - 1].status == Queued then 1 else 0)
  }

  /** Replacing one row changes the count by that row's share alone. */
  lemma {:induction false} QueuedCountUpdate(rows: seq<Row>, i: nat, row: Row)
    requires i < |rows|
    ensures QueuedCount(rows[i := row]) + (if rows[i].status == Queued then 1 else 0)
            == QueuedCount(rows) + (if row.status == Queued then 1 else 0)
  {
    var last := |rows| - 1;
    if i < last {
      assert rows[i := row][..last] == rows[..last][i := row];
      QueuedCountUpdate(rows[..last], i, row);
    } else {
      assert rows[i := row][..last] == rows[..last];
    }
  }

  /** No row is queued exactly when the count is zero. */
  lemma {:induction false} QueuedCountZero(rows: seq<Row>)
    ensures QueuedCount(rows) == 0 <==> forall k :: 0 <= k < |rows| ==> rows[k].status != Queued
  {
    if rows != [] {
      var last := |rows| - 1;
      QueuedCountZero(rows[..last]);
      assert forall k :: 0 <= k < last ==> rows[..last][k] == rows[k];
    }
  }

  /** Inserting a row with the next id and an unseen url keeps the table valid. */
  lemma InsertKeepsValid(rows: seq<Row>, nextId: nat, row: Row)
    requires TableValid(rows, nextId)
    requires row.id == nextId && FindUrl(rows, row.url).None?
    ensures TableValid(rows + [row], nextId + 1)
  {
    var rs := rows + [row];
    forall i, j | 0 <= i < j < |rs| ensures rs[i].id < rs[j].id && rs[i].url != rs[j].url {
      if j == |rows| {
        assert rs[i] == rows[i];
      }
    }
  }

  /** Rewriting a row without touching its id or url keeps the table valid. */
  lemma UpdateKeepsValid(rows: seq<Row>, nextId: nat, i: nat, row: Row)
    requires TableValid(rows, nextId) && i < |rows|
    requires row.id == rows[i].id && row.url == rows[i].url
    ensures TableValid(rows[i := row], nextId)
  {
  }

  /** Right after a URL's row is inserted, enqueueing it again finds that row
      queued, so a second request for the same link is refused. */
  lemma InsertedRowFound(rows: seq<Row>, nextId: nat, n: NormalizedRequest, now: int)
    requires TableValid(rows, nextId) && FindUrl(rows, n.url).None?
    ensures var rs := rows + [NewRow(nextId, n, now)];
            FindUrl(rs, n.url) == Some(|rows|) && rs[|rows|].status == Queued
  {
    assert (rows + [NewRow(nextId, n, now)])[..|rows|] == rows;
  }

  /** The `downloads` table. */
  class DownloadTable {
    var rows: seq<Row>
    var nextId: nat

    ghost predicate Valid()
      reads this
    {
      TableValid(rows, nextId)
    }

    /** A freshly created table. */
    constructor ()
      ensures Valid() && rows == [] && nextId == 1
    {
      rows := [];
      nextId := 1;
    }

    /** `enqueueDownload`: a request that fails normalization is refused with
        400; an unseen URL gets a new queued row; a failed row is queued
        again; a queued, running or done row is reported and left alone. */
    method EnqueueDownload(request: DownloadRequest, parse: UrlParser, now: int) returns (res: QueueResult)
      requires Valid()
      modifies this
      ensures Valid()
      ensures NormalizeDownloadRequest(request, parse).Err? ==>
                && res == QueueResult(false, NormalizeDownloadRequest(request, parse).error, None, None, 400)
                && rows == old(rows) && nextId == old(nextId)
      ensures var v := NormalizeDownloadRequest(request, parse);
              v.Ok? && FindUrl(old(rows), v.value.url).None? ==>
                && rows == old(rows) + [NewRow(old(nextId), v.value, now)]
                && nextId == old(nextId) + 1
                && res == QueueResult(true, EnqueuedMessage, Some(old(nextId)), Some(Queued), 200)
      ensures var v := NormalizeDownloadRequest(request, parse);
              v.Ok? && FindUrl(old(rows), v.value.url).Some? ==>
                var i := FindUrl(old(rows), v.value.url).value;
                var row := old(rows)[i];
                && nextId == old(nextId)
                && (row.status == Failed ==>
                      && rows == old(rows)[i := RequeuedRow(row, v.value, now)]
                      && res == QueueResult(true, RequeuedMessage, Some(row.id), Some(Queued), 200))
                && (row.status != Failed ==>
                      && rows == old(rows)
                      && res == QueueResult(false, if row.status == Done then AlreadyDoneMessage else AlreadyQueuedMessage,
                                            Some(row.id), Some(row.status), 200))
    {
      var normalized := NormalizeDownloadRequest(request, parse);
      if normalized.Err? {
        return QueueResult(false, normalized.error, None, None, 400);
      }
      res := EnqueueNormalized(normalized.value, now);
    }

    /** The part of `enqueueDownload` after normalization: look the URL up,
        then insert, queue again, or refuse. */
    method EnqueueNormalized(n: NormalizedRequest, now: int) returns (res: QueueResult)
      requires Valid()
      modifies this
      ensures Valid()
      ensures FindUrl(old(rows), n.url).None? ==>
                && rows == old(rows) + [NewRow(old(nextId), n, now)]
                && nextId == old(nextId) + 1
                && res == QueueResult(true, EnqueuedMessage, Some(old(nextId)), Some(Queued), 200)
      ensures FindUrl(old(rows), n.url).Some? ==>
                var i := FindUrl(old(rows), n.url).value;
                var row := old(rows)[i];
                && nextId == old(nextId)
                && (row.status == Failed ==>
                      && rows == old(rows)[i := RequeuedRow(row, n, now)]
                      && res == QueueResult(true, RequeuedMessage, Some(row.id), Some(Queued), 200))
                && (row.status != Failed ==>
                      && rows == old(rows)
                      && res == QueueResult(false, if row.status == Done then AlreadyDoneMessage else AlreadyQueuedMessage,
                                            Some(row.id), Some(row.status), 200))
    {
      var existing := FindUrl(rows, n.url);
      if existing.None? {
        var id := nextId;
        InsertKeepsValid(rows, nextId, NewRow(id, n, now));
        rows := rows + [NewRow(id, n, now)];
        nextId := nextId + 1;
        return QueueResult(true, EnqueuedMessage, Some(id), Some(Queued), 200);
      }
      var i := existing.value;
      var row := rows[i];
      if row.status == Failed {
        UpdateKeepsValid(rows, nextId, i, RequeuedRow(row, n, now));
        rows := rows[i := RequeuedRow(row, n, now)];
        return QueueResult(true, RequeuedMessage, Some(row.id), Some(Queued), 200);
      }
      var message := if row.status == Done then AlreadyDoneMessage else AlreadyQueuedMessage;
      return QueueResult(false, message, Some(row.id), Some(row.status), 200);
    }

    /** `takeNextTask`: claims the oldest queued row, marking it running. */
    method TakeNextTask(now: int) returns (task: Option<StoredTask>)
      requires Valid()
      modifies this
      ensures Valid() && nextId == old(nextId)
      ensures OldestQueued(old(rows)).None? ==> task.None? && rows == old(rows)
      ensures OldestQueued(old(rows)).Some? ==>
                var i := OldestQueued(old(rows)).value;
                && task == Some(TaskOf(old(rows)[i]))
                && rows == old(rows)[i := ClaimedRow(old(rows)[i], now)]
    {
      var oldest := OldestQueued(rows);
      if oldest.None? {
        return None;
      }
      var i := oldest.value;
      var row := rows[i];
      UpdateKeepsValid(rows, nextId, i, ClaimedRow(row, now));
      rows := rows[i := ClaimedRow(row, now)];
      return Some(TaskOf(row));
    }

    /** `finalizeTask`: records the outcome of a download on the row with
        that id; with no such row nothing changes. */
    method FinalizeTask(taskId: nat, result: DownloadResult, now: int)
      requires Valid()
      modifies this
      ensures Valid() && nextId == old(nextId)
      ensures FindId(old(rows), taskId).None? ==> rows == old(rows)
      ensures FindId(old(rows), taskId).Some? ==>
                var i := FindId(old(rows), taskId).value;
                rows == old(rows)[i := FinalizedRow(old(rows)[i], result, now)]
    {
      var found := FindId(rows, taskId);
      if found.Some? {
        var i := found.value;
        UpdateKeepsValid(rows, nextId, i, FinalizedRow(rows[i], result, now));
        rows := rows[i := FinalizedRow(rows[i], result, now)];
      }
    }

    /** `runQueue`: claims, downloads and finalizes tasks until no row is
        queued. Every row that was queued ends done or failed, as the
        download of its own url, filename and format decided; every other
        row is left as it was. `clock(t)` is the time of the `t`-th reading
        of the clock. */
    method RunQueue(download: DownloadRequest -> DownloadResult, clock: nat -> int)
      requires Valid()
      modifies this
      ensures Valid() && nextId == old(nextId)
      ensures DrainedFrom(old(rows), rows)
      ensures forall k :: 0 <= k < |rows| ==> rows[k].status != Queued
      ensures forall k :: 0 <= k < |rows| && old(rows)[k].status == Queued
                ==> rows[k].status == Done || rows[k].status == Failed
      ensures forall k :: 0 <= k < |rows| && old(rows)[k].status == Queued
                ==> FinishedWith(rows[k], download(RequestOf(old(rows)[k])))
    {
      var tick: nat := 0;
      while true
        invariant Valid() && nextId == old(nextId)
        invariant DrainedFrom(old(rows), rows)
        invariant DownloadedFrom(old(rows), rows, download)
        decreases QueuedCount(rows)
      {
        ghost var before := rows;
        var task := TakeNextTask(clock(tick));
        tick := tick + 1;
        if task.None? {
          DrainComplete(old(rows), rows);
          return;
        }
        ghost var i := OldestQueued(before).value;
        ghost var claimed := rows;
        var result := download(DownloadRequest(task.value.url, task.value.filename, task.value.format));
        assert result == download(RequestOf(before[i]));
        FindOwnId(claimed, nextId, i);
        var now := clock(tick);
        FinalizeTask(task.value.id, result, now);
        tick := tick + 1;
        DrainStep(old(rows), before, i, claimed[i], FinalizedRow(claimed[i], result, now));
        DrainStepOutcome(old(rows), before, i, claimed[i], FinalizedRow(claimed[i], result, now), download);
      }
    }
  }

  /** How the rows of a drain relate to the rows it began with: the same ids
      and urls, the rows that were not queued untouched, and no row that was
      queued left running. */
  predicate DrainedFrom(orig: seq<Row>, rows: seq<Row>) {
    && |rows| == |orig|
    && (forall k :: 0 <= k < |rows| ==> rows[k].id == orig[k].id && rows[k].url == orig[k].url)
    && (forall k :: 0 <= k < |rows| && orig[k].status == Queued ==> rows[k].status != Running)
    && (forall k :: 0 <= k < |rows| && orig[k].status != Queued ==> rows[k] == orig[k])
  }

  /** The download request a row stands for. */
  function RequestOf(row: Row): DownloadRequest {
    DownloadRequest(row.url, row.filename, row.format)
  }

  /** `row` records the outcome `result`, as `finalizeTask` writes it: done
      exactly when the download succeeded, the message as error only on
      failure, the output path only on success, and the truncated logs. */
  predicate FinishedWith(row: Row, result: DownloadResult) {
    && (row.status == Done <==> result.ok)
    && (row.status == Failed <==> !result.ok)
    && row.error == (if result.ok then None else Some(result.message))
    && row.outputPath == (if result.ok then result.outputPath else None)
    && row.logs == TruncateLogs(result.logs, LogLimit)
  }

  /** How the outcomes of a drain relate to the rows it began with: a row
      still queued is untouched, and a row that was queued and no longer is
      records the download of its own request. */
  predicate DownloadedFrom(orig: seq<Row>, rows: seq<Row>, download: DownloadRequest -> DownloadResult) {
    && |rows| == |orig|
    && (forall k :: 0 <= k < |rows| && rows[k].status == Queued ==> rows[k] == orig[k])
    && (forall k :: 0 <= k < |rows| && orig[k].status == Queued && rows[k].status != Queued
          ==> FinishedWith(rows[k], download(RequestOf(orig[k]))))
  }

  /** One round of the drain finalizes the claimed row with the download of
      its own request, which is the request it was queued with. */
  lemma DrainStepOutcome(orig: seq<Row>, rows: seq<Row>, i: nat, claimed: Row, finished: Row,
                         download: DownloadRequest -> DownloadResult)
    requires DownloadedFrom(orig, rows, download) && i < |rows| && rows[i].status == Queued
    requires finished.status != Queued && FinishedWith(finished, download(RequestOf(rows[i])))
    ensures DownloadedFrom(orig, rows[i := claimed][i := finished], download)
  {
    assert rows[i := claimed][i := finished] == rows[i := finished];
    assert rows[i] == orig[i];
  }

  /** A drain that finds no queued row is complete: every row that was
      queued has ended done or failed. */
  lemma DrainComplete(orig: seq<Row>, rows: seq<Row>)
    requires DrainedFrom(orig, rows) && OldestQueued(rows).None?
    ensures forall k :: 0 <= k < |rows| ==> rows[k].status != Queued
    ensures forall k :: 0 <= k < |rows| && orig[k].status == Queued
              ==> rows[k].status == Done || rows[k].status == Failed
  {
  }

  /** One claim-download-finalize round of the drain: a queued row, claimed
      and then finished as done or failed, keeps `DrainedFrom` and lowers
      the queued count. */
  lemma DrainStep(orig: seq<Row>, rows: seq<Row>, i: nat, claimed: Row, finished: Row)
    requires DrainedFrom(orig, rows) && i < |rows| && rows[i].status == Queued
    requires finished.id == rows[i].id && finished.url == rows[i].url
    requires finished.status == Done || finished.status == Failed
    ensures DrainedFrom(orig, rows[i := claimed][i := finished])
    ensures QueuedCount(rows[i := claimed][i := finished]) < QueuedCount(rows)
  {
    assert rows[i := claimed][i := finished] == rows[i := finished];
    QueuedCountUpdate(rows, i, finished);
  }

  /** The flags `startQueueProcessing` keeps: a drain loop runs, another
      drain was asked for while it ran, and the loop's promise is held. */
  datatype Flags = Flags(running: bool, pending: bool, current: bool)

  /** The flags `getQueueState` creates. */
  const Idle := Flags(false, false, false)

  /** `startQueueProcessing` on the flags: the new flags, and whether a drain
      loop starts. */
  function OnTrigger(f: Flags): (r: (Flags, bool))
    ensures r.1 <==> !f.running
    ensures r.0.running
    ensures f.running ==> r.0.pending && r.0.current == f.current
    ensures !f.running ==> !r.0.pending && r.0.current
  {
    if f.running then (f.(pending := true), false) else (Flags(true, false, true), true)
  }

  /** The `finally` callback of a drain loop: the new flags, and whether
      another `startQueueProcessing` is scheduled. */
  function OnLoopDone(f: Flags): (r: (Flags, bool))
    ensures !r.0.running && !r.0.current && r.0.pending == f.pending
    ensures r.1 <==> f.pending
  {
    (f.(running := false, current := false), f.pending)
  }

  /** The global queue state. */
  class QueueState {
    var running: bool
    var pending: bool
    var current: bool

    function Snapshot(): Flags
      reads this
    {
      Flags(running, pending, current)
    }

    constructor ()
      ensures Snapshot() == Idle
    {
      running := false;
      pending := false;
      current := false;
    }

    /** `startQueueProcessing`: while a loop runs, only remembers that a drain
        was asked for; otherwise starts one. */
    method StartQueueProcessing() returns (starts: bool)
      modifies this
      ensures (Snapshot(), starts) == OnTrigger(old(Snapshot()))
      ensures old(running) ==> !starts && running && pending && current == old(current)
      ensures !old(running) ==> starts && running && !pending && current
    {
      if running {
        pending := true;
        return false;
      }
      running := true;
      pending := false;
      current := true;
      return true;
    }

    /** The end of a drain loop: clears the flags it set and reports whether
        a new start must be scheduled. */
    method LoopFinished() returns (retrigger: bool)
      modifies this
      ensures (Snapshot(), retrigger) == OnLoopDone(old(Snapshot()))
      ensures !running && !current && pending == old(pending) && retrigger == old(pending)
    {
      running := false;
      current := false;
      retrigger := pending;
    }
  }

  /** What can happen to the flags: a call of `startQueueProcessing` (from a
      request or from a scheduled restart), or the end of the drain loop. */
  datatype Event = Trigger | LoopDone

  /** The flags after a sequence of events, starting from `Idle`. */
  function After(events: seq<Event>): Flags {
    if events == [] then Idle
    else
      var f := After(events[..|events| - 1]);
      if events[|events| - 1] == Trigger then OnTrigger(f).0 else OnLoopDone(f).0
  }

  /** A sequence of events that can occur: a loop ends only while one runs. */
  predicate Possible(events: seq<Event>) {
    events == [] ||
    (Possible(events[..|events| - 1])
     && (events[|events| - 1] == LoopDone ==> After(events[..|events| - 1]).running))
  }

  /** How many drain loops the events started. */
  function Started(events: seq<Event>): nat {
    if events == [] then 0
    else
      var init := events[..|events| - 1];
      Started(init) + (if events[|events| - 1] == Trigger && OnTrigger(After(init)).1 then 1 else 0)
  }

  /** How many drain loops the events ended. */
  function Ended(events: seq<Event>): nat {
    if events == [] then 0
    else Ended(events[..|events| - 1]) + (if events[|events| - 1] == LoopDone then 1 else 0)
  }

  /** At most one drain loop runs at a time: every started loop but the
      running one has ended, and the loop's promise is held exactly while it
      runs. */
  lemma {:induction false} OneLoopAtATime(events: seq<Event>)
    requires Possible(events)
    ensures Started(events) == Ended(events) + (if After(events).running then 1 else 0)
    ensures After(events).current == After(events).running
  {
    if events != [] {
      OneLoopAtATime(events[..|events| - 1]);
    }
  }

  /** A request for a drain that arrives while a loop runs is not lost:
      whatever further requests come, the end of that loop schedules a new
      start. */
  lemma {:induction false} TriggerNotLost(events: seq<Event>, more: seq<Event>)
    requires After(events).running
    requires forall k :: 0 <= k < |more| ==> more[k] == Trigger
    ensures var f := After(events + [Trigger] + more);
            f.running && f.pending && OnLoopDone(f).1
  {
    if more != [] {
      var init := more[..|more| - 1];
      TriggerNotLost(events, init);
      assert (events + [Trigger] + more)[..|events| + 1 + |init|] == events + [Trigger] + init;
    } else {
      assert (events + [Trigger])[..|events|] == events;
    }
  }

  /** A scheduled restart after the end of a loop starts a new one. */
  lemma RestartStartsLoop(events: seq<Event>)
    requires Possible(events) && After(events).running
    ensures var done := After(events + [LoopDone]);
            !done.running && OnTrigger(done).1
  {
    assert (events + [LoopDone])[..|events|] == events;
  }
}
