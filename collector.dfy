/** The `CollectorDO` Durable Object and the Worker's router (src/index.ts). The
    object's durable storage is three fields; the outside world's answers arrive
    in an `Env`. Each method runs the steps of the TypeScript in the same order and
    is proved to leave the cells that module CollectorSpec describes. */
module Collector {
  import opened Optional
  import opened NinjaTypes
  import opened ActivitySort
  import opened CollectorSpec

  class CollectorDO {
    /** Durable key `initialized` (never written reads as false). */
    var initialized: bool
    /** Durable key `lastActivityId`, the cursor. */
    var lastActivityId: Option<int>
    /** The pending alarm time, in milliseconds. */
    var alarm: Option<int>

    function Cells(): (s: Store)
      reads this
    {
      Store(initialized, lastActivityId, alarm)
    }

    /** A fresh object over empty storage. */
    constructor ()
      ensures Cells() == Store(false, None, None)
    {
      initialized, lastActivityId, alarm := false, None, None;
    }

    /** collectLogs(init): fetch, sort, forward, record the cursor and the flag,
        and re-arm the alarm, catching every error. Returns the records handed to
        postToWirespeed, in call order. */
    method CollectLogs(init: bool, env: Env) returns (forwarded: seq<Activity>)
      modifies this
      ensures Cells() == Cycle(old(Cells()), init, env).store
      ensures forwarded == Cycle(old(Cells()), init, env).forwarded
    {
      forwarded := [];
      var thrown := false;  // an exception left the `try` block
      if env.token.TokenRefused? {
        thrown := true;
      } else {
        var query := QueryFilter(init, lastActivityId, env.startClock);
        var response := env.listing(query);
        if response.ListFailed? {
          thrown := true;
        } else {
          var activities := response.activities;
          if |activities| > 0 {
            var sorted := SortById(activities);
            forwarded, thrown := ForwardBatch(sorted, env);
            if !thrown {
              lastActivityId := Some(sorted[|sorted| - 1].id);
            }
          }
          if !thrown && init {
            initialized := true;
          }
        }
      }
      // The end of the `try` block and the `catch` handler both schedule the
      // next run one delay after the clock they read.
      alarm := Some(env.endClock + RearmDelayMs);
    }

    /** The awaited `for` loop over the sorted batch: each record is handed to
        postToWirespeed in turn, and a forward that throws ends the loop. Returns
        the records handed over and whether one of them threw. */
    method ForwardBatch(sorted: seq<Activity>, env: Env) returns (forwarded: seq<Activity>, thrown: bool)
      ensures var k := FirstThrow(|sorted|, env.testMode, env.replies, 0);
        thrown == (k < |sorted|) &&
        forwarded == if thrown then sorted[..k + 1] else sorted
    {
      ghost var k := FirstThrow(|sorted|, env.testMode, env.replies, 0);
      forwarded, thrown := [], false;
      var i := 0;
      while i < |sorted| && !thrown
        invariant 0 <= i <= |sorted|
        invariant thrown <==> k < i
        invariant i <= k + 1
        invariant forwarded == sorted[..i]
      {
        forwarded := forwarded + [sorted[i]];
        var result := PostToWirespeed(env.testMode, env.replies(i));
        if result.Threw? {
          thrown := true;
        }
        i := i + 1;
      }
    }

    /** alarm(): an incremental cycle, whatever the stored flag says. */
    method Alarm(env: Env) returns (forwarded: seq<Activity>)
      modifies this
      ensures Cells() == Cycle(old(Cells()), false, env).store
      ensures forwarded == Cycle(old(Cells()), false, env).forwarded
    {
      forwarded := CollectLogs(false, env);
    }

    /** The object's fetch handler: `/init` answers at once when the flag is set
        and otherwise runs a cold-start cycle; any other path answers "DO fetch". */
    method Fetch(path: string, env: Env) returns (response: Response, forwarded: seq<Activity>)
      modifies this
      ensures path == "/init" ==>
        var reply := InitEndpoint(old(Cells()), env);
        response == reply.response && Cells() == reply.store &&
        forwarded == (if reply.run.Some? then reply.run.value.forwarded else [])
      ensures path != "/init" ==> response == Response(200, "DO fetch") && forwarded == []
      ensures path != "/init" || old(initialized) ==> unchanged(this)
    {
      forwarded := [];
      if path == "/init" {
        if initialized {
          return AlreadyInitialized, forwarded;
        }
        forwarded := CollectLogs(true, env);
        return Initialized, forwarded;
      }
      response := Response(200, "DO fetch");
    }
  }

  /** The Worker's fetch handler: `/init` goes to the singleton collector, every
      other path is answered 404 without touching it. */
  method WorkerFetch(collector: CollectorDO, path: string, env: Env)
    returns (response: Response, forwarded: seq<Activity>)
    modifies collector
    ensures path == "/init" ==>
      var reply := InitEndpoint(old(collector.Cells()), env);
      response == reply.response && collector.Cells() == reply.store &&
      forwarded == (if reply.run.Some? then reply.run.value.forwarded else [])
    ensures path != "/init" ==>
      response == Response(404, "Not found") && forwarded == [] && unchanged(collector)
  {
    if path == "/init" {
      response, forwarded := collector.Fetch(path, env);
    } else {
      response, forwarded := Response(404, "Not found"), [];
    }
  }
}
