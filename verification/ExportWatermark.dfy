/**
 The nightly export (`ExportDailyProcessor.exportWorkspace` in
 `backend/src/worker-jobs/processors.ts`): tickets written since a stored watermark are emitted
 in batches, oldest write first, and the watermark moves to the last one emitted.
 */
module ExportWatermark {
  import opened Options
  import opened OrderedPage

  /** The stored row of `export_state`, and what has left the process so far. */
  datatype Progress = Progress(watermark: Option<int>, emitted: set<Row>) {
    /** `state?.watermark ?? new Date(0)` */
    function Since(): int { if watermark.Some? then watermark.value else 0 }
  }

  /** What one run leaves behind, given the rows its query returned. */
  function Exported(p: Progress, rows: seq<Row>): Progress {
    if rows == [] then p
    else Progress(Some(rows[|rows| - 1].stamp), p.emitted + (set r | r in rows))
  }

  class ExportJob {
    var watermark: Option<int>
    var lastCount: nat
    ghost var emitted: set<Row>

    ghost function View(): Progress
      reads this
    {
      Progress(watermark, emitted)
    }

    constructor ()
      ensures View() == Progress(None, {})
    {
      watermark, lastCount, emitted := None, 0, {};
    }

    /** `rows` is what the query for writes since the watermark returned. */
    method ExportWorkspace(rows: seq<Row>)
      modifies this
      ensures View() == Exported(old(View()), rows)
      ensures lastCount == if rows == [] then old(lastCount) else |rows|
    {
      if |rows| == 0 {
        return;
      }
      var newWatermark := rows[|rows| - 1].stamp;
      emitted := emitted + (set r | r in rows);
      watermark := Some(newWatermark);
      lastCount := |rows|;
    }
  }

  // ---- runs of writes and exports ------------------------------------------------------

  /** The tickets with the stamp of their latest committed write, and the export's progress. */
  datatype Desk = Desk(tickets: map<nat, int>, progress: Progress)

  /** An export that fails has emitted its rows and does not keep its watermark. */
  datatype Action =
    | Write(id: nat, stamp: int)
    | Export(rows: seq<Row>)
    | Fail(rows: seq<Row>)

  /** The rows the query selects from. */
  function Versions(d: Desk): set<Row> {
    set id | id in d.tickets && d.tickets[id] >= d.progress.Since() :: Row(d.tickets[id], id)
  }

  ghost predicate Enabled(d: Desk, limit: nat, a: Action) {
    a.Export? || a.Fail? ==> IsPage(a.rows, Versions(d), limit)
  }

  function Apply(d: Desk, a: Action): Desk {
    match a
    case Write(id, stamp) => d.(tickets := d.tickets[id := stamp])
    case Export(rows) => d.(progress := Exported(d.progress, rows))
    case Fail(rows) => d.(progress := d.progress.(emitted := d.progress.emitted + (set r | r in rows)))
  }

  /** Every ticket's current version stamped before the watermark has been emitted. */
  predicate Complete(d: Desk) {
    forall id :: id in d.tickets && d.tickets[id] < d.progress.Since() ==> Row(d.tickets[id], id) in d.progress.emitted
  }

  /** One export run: the watermark does not go back, and nothing behind it is missing. */
  lemma ExportKeepsComplete(d: Desk, limit: nat, rows: seq<Row>)
    requires limit > 0 && Complete(d) && Enabled(d, limit, Export(rows))
    ensures Complete(Apply(d, Export(rows)))
    ensures Apply(d, Export(rows)).progress.Since() >= d.progress.Since()
    ensures |rows| < limit ==>
      forall id :: id in d.tickets && d.tickets[id] >= d.progress.Since() ==>
        Row(d.tickets[id], id) in Apply(d, Export(rows)).progress.emitted
  {
    if rows != [] {
      var e := Apply(d, Export(rows));
      assert rows[|rows| - 1] in rows;
      forall id | id in e.tickets && e.tickets[id] < e.progress.Since()
        ensures Row(e.tickets[id], id) in e.progress.emitted
      {
        var r := Row(d.tickets[id], id);
        if r in Versions(d) {
          BeyondPage(rows, Versions(d), limit, r);
        }
      }
    }
    forall id | |rows| < limit && id in d.tickets && d.tickets[id] >= d.progress.Since()
      ensures Row(d.tickets[id], id) in rows
    {
      assert Row(d.tickets[id], id) in Versions(d);
    }
  }

  /**
   A committed write keeps the promise exactly when it is not stamped before the watermark (or was already
   emitted).
   */
  lemma WriteKeepsCompleteIff(d: Desk, id: nat, stamp: int)
    requires Complete(d)
    ensures Complete(Apply(d, Write(id, stamp)))
      <==> stamp >= d.progress.Since() || Row(stamp, id) in d.progress.emitted
  {
    var e := Apply(d, Write(id, stamp));
    assert id in e.tickets && e.tickets[id] == stamp;
  }

  /** Writes that are not stamped before the watermark they commit under. */
  ghost predicate InOrder(d: Desk, limit: nat, run: seq<Action>)
    decreases |run|
  {
    run == [] ||
    (Enabled(d, limit, run[0]) && (run[0].Write? ==> run[0].stamp >= d.progress.Since())
      && InOrder(Apply(d, run[0]), limit, run[1..]))
  }

  function After(d: Desk, run: seq<Action>): Desk
    decreases |run|
  {
    if run == [] then d else After(Apply(d, run[0]), run[1..])
  }

  /**
   Over any run of writes and exports, some of which fail, nothing behind the watermark is missing, and
   the watermark never goes back.
   */
  lemma {:induction false} RunsAreComplete(d: Desk, limit: nat, run: seq<Action>)
    requires limit > 0 && Complete(d) && InOrder(d, limit, run)
    ensures Complete(After(d, run)) && After(d, run).progress.Since() >= d.progress.Since()
    decreases |run|
  {
    if run != [] {
      match run[0] {
        case Write(id, stamp) => WriteKeepsCompleteIff(d, id, stamp);
        case Export(rows) => ExportKeepsComplete(d, limit, rows);
        case Fail(_) => assert Complete(Apply(d, run[0]));
      }
      RunsAreComplete(Apply(d, run[0]), limit, run[1..]);
    }
  }

  /** A full batch moves the watermark, unless every row of it carries the old watermark's stamp. */
  lemma FullBatchAdvances(d: Desk, limit: nat, rows: seq<Row>)
    requires limit > 0 && Enabled(d, limit, Export(rows)) && |rows| == limit
    ensures Apply(d, Export(rows)).progress.Since() == d.progress.Since()
      <==> forall r :: r in rows ==> r.stamp == d.progress.Since()
  {
    var last := rows[|rows| - 1];
    assert last in rows;
    forall r | r in rows ensures d.progress.Since() <= r.stamp <= last.stamp {
      BeyondPage(rows, Versions(d), limit, r);
    }
  }

  /** ... and then the export is starved: as long as those tickets are not written, it emits the same batch for ever. */
  lemma StarvedExport(d: Desk, e: Desk, limit: nat, rows: seq<Row>, next: seq<Row>)
    requires limit > 0 && Enabled(d, limit, Export(rows)) && |rows| == limit
    requires forall r :: r in rows ==> r.stamp == d.progress.Since()
    requires e.progress == Apply(d, Export(rows)).progress
    requires forall r :: r in rows ==> r.id in e.tickets && e.tickets[r.id] == r.stamp
    requires forall id :: id in e.tickets && Row(e.tickets[id], id) !in Versions(d) ==>
      e.tickets[id] > d.progress.Since()
    requires Enabled(e, limit, Export(next))
    ensures next == rows && Apply(e, Export(next)).progress == e.progress
  {
    FullBatchAdvances(d, limit, rows);
    forall r | r in rows ensures r in Versions(e) {
      assert e.tickets[r.id] == r.stamp;
    }
    PageUnique(rows, next, Versions(e), limit);
  }

  /** An export that emits anything is asked again only for what carries the stamp of the last row it emitted. */
  lemma ReselectsLastOnly(d: Desk, limit: nat, rows: seq<Row>, r: Row)
    requires limit > 0 && Enabled(d, limit, Export(rows)) && rows != []
    ensures var e := Apply(d, Export(rows));
      && e.tickets == d.tickets && e.progress.watermark.Some?
      && (r in rows ==> r in e.progress.emitted)
      && (r in rows && r in Versions(e) ==> forall x :: x in rows ==> x.stamp <= r.stamp)
      && (r in Versions(d) && r !in rows ==> r in Versions(e))
  {
    assert rows[|rows| - 1] in rows;
    forall x | x in rows ensures x.stamp <= rows[|rows| - 1].stamp {
      BeyondPage(rows, Versions(d), limit, x);
    }
    if r in Versions(d) && r !in rows {
      BeyondPage(rows, Versions(d), limit, r);
    }
  }

  /**
   The first export selects every ticket stamped since the epoch; later ones, those stamped since the last row
   before.
   */
  lemma SelectsSince(d: Desk, id: nat)
    requires id in d.tickets
    ensures Row(d.tickets[id], id) in Versions(d)
      <==> d.tickets[id] >= (if d.progress.watermark.None? then 0 else d.progress.watermark.value)
  {
  }
}
