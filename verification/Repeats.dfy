/** A caller that never saw an answer sends the request again: what the repeat does and says. */
module Repeats {
  import opened Domain
  import opened Transitions
  import opened Database
  import opened Invariants
  import opened Lifecycle

  /** The requests a client may retry after losing the answer. */
  predicate Retriable(verb: Verb) {
    verb.Pause? || verb.Finish? || verb.Release? || verb.Resume? || verb.Cancel?
  }

  /** The same request again: only the random draw of a backoff may differ. */
  predicate SameRequest(verb: Verb, again: Verb) {
    verb == again || (verb.Finish? && again.Finish? && verb.ending == again.ending && verb.worker == again.worker)
  }

  /** When the repeat of a request that took effect is answered as a success. */
  predicate RepeatSucceeds(verb: Verb, after: Run)
    requires Retriable(verb)
  {
    match verb
    case Pause(_, _, _, _) => after.status.Paused?
    case Release(_, _) => after.status.Queued?
    case Finish(_, worker, _) => after.status.Final() || worker.Some?
    case Resume(_, _, _) => true
    case Cancel(_, _, _) => true
  }

  lemma VerdictAgain(db: Db, db': Db, r: Run, verb: Verb, again: Verb, now: Time, later: Time)
    requires RowInv(r) && Retriable(verb) && SameRequest(verb, again)
    requires verb.Finish? ==> verb.ending.status.Final()
    requires VerbVerdict(db, r, verb, now).Changed?
    requires verb.Resume? ==> Kept(db', r.tenant, verb.resolution) == Some(verb.resolution)
    ensures
      var after := VerbVerdict(db, r, verb, now).run;
      var reply := VerbVerdict(db', after, again, later);
      && !reply.Changed?
      && (reply.Unchanged? <==> RepeatSucceeds(verb, after))
  {
  }

  /** An immediate repeat of a request that took effect changes nothing in any table, and is
      answered with success exactly as `RepeatSucceeds` says: always for a resume and a cancel,
      for a pause that paused, a release that requeued and an ending, and for a retried error of a
      named worker; the branches that ended CANCELLED instead refuse it. */
  lemma RepeatIsHarmless(db: Db, a: Action, again: Verb, later: Time)
    requires DbInv(db) && a.step.OnRun? && Retriable(a.step.verb) && SameRequest(a.step.verb, again)
    requires Touches(db, a, a.step.id)
    ensures
      var id, tenant := a.step.id, a.step.tenant;
      var after := Next(db, a);
      var reply := Reply(after, id, tenant, again, later);
      && Next(after, Action(OnRun(id, tenant, again), later)) == after
      && id in after.runs
      && (reply.Unchanged? <==> RepeatSucceeds(a.step.verb, after.runs[id]))
  {
    var id, tenant := a.step.id, a.step.tenant;
    var after := Next(db, a);
    Touched(db, a, id);
    ChangeKeepsRow(db, db.runs[id], a.step.verb, a.now);
    if a.step.verb.Resume? {
      ResumeRecords(db, a, id);
    }
    VerdictAgain(db, after, db.runs[id], a.step.verb, again, a.now, later);
    RefusedChangesNothing(after, Action(OnRun(id, tenant, again), later));
  }

  // ---------------------------------------------------------------- a resume, much later

  lemma StepKeepsAnswer(db: Db, a: Action, id: string, key: (string, string))
    requires DbInv(db) && id in db.runs && id in Next(db, a).runs
    requires key.0 == id && key in db.resolutions
    ensures key in Next(db, a).resolutions && Next(db, a).resolutions[key] == db.resolutions[key]
  {
    hide Next;
    if Touches(db, a, id) && a.step.verb.Resume? {
      ResumeRecords(db, a, id);
    } else {
      SameAnswers(db, a, id);
    }
  }

  /** An answer, once recorded, stays as it was for the rest of the run's life. */
  lemma {:induction false} AnswersAreKept(trace: seq<Action>, id: string, i: nat, j: nat, key: (string, string))
    requires i <= j <= |trace| && Alive(trace, id, i, j)
    requires key.0 == id && key in After(trace, i).resolutions
    ensures key in After(trace, j).resolutions
    ensures After(trace, j).resolutions[key] == After(trace, i).resolutions[key]
    decreases j
  {
    hide Next;
    if i < j {
      AnswersAreKept(trace, id, i, j - 1, key);
      Reachable(trace, j - 1);
      assert id in After(trace, j - 1).runs && id in After(trace, j).runs;
      StepKeepsAnswer(After(trace, j - 1), trace[j - 1], id, key);
    }
  }

  /** An interrupt is answered once: whatever the run did since, sending any answer to it again
      changes nothing. The very same answer is a success exactly while the run does not wait on
      that interrupt id once more; while it does, no answer to it can take effect. */
  lemma ResumeStaysANoOp(trace: seq<Action>, id: string, i: nat, k: nat)
    requires i < k < |trace| && Alive(trace, id, i, k)
    requires Touches(After(trace, i), trace[i], id) && trace[i].step.verb.Resume?
    requires trace[k].step.OnRun? && trace[k].step.id == id && trace[k].step.verb.Resume?
    requires trace[k].step.verb.resolution.interrupt == trace[i].step.verb.resolution.interrupt
    ensures After(trace, k + 1) == After(trace, k)
    ensures
      var again := trace[k].step;
      var reply := Reply(After(trace, k), id, again.tenant, again.verb, trace[k].now);
      again.tenant == trace[i].step.tenant && again.verb.resolution == trace[i].step.verb.resolution ==>
        (reply.Unchanged? <==> !After(trace, k).runs[id].WaitsOn(again.verb.resolution.interrupt))
  {
    hide Next;
    var key := (id, trace[i].step.verb.resolution.interrupt);
    Reachable(trace, i);
    ResumeRecords(After(trace, i), trace[i], id);
    assert Alive(trace, id, i + 1, k);
    AnswersAreKept(trace, id, i + 1, k, key);
    TenantNeverChanges(trace, id, i, k);
    AnsweredStaysAnswered(After(trace, k), trace[k], id, trace[i].step.verb.resolution);
  }

  /** A resume of an interrupt that has its answer already. */
  lemma AnsweredStaysAnswered(db: Db, a: Action, id: string, first: Resolution)
    requires a.step.OnRun? && a.step.id == id && a.step.verb.Resume?
    requires id in db.runs && a.step.verb.resolution.interrupt == first.interrupt && first.run == id
    requires
      var key := (id, first.interrupt);
      && key in db.resolutions && db.resolutions[key].tenant == db.runs[id].tenant
      && db.resolutions[key].resolution == first
    ensures Next(db, a) == db
    ensures
      Visible(db, id, a.step.tenant) && a.step.verb.resolution == first ==>
        (Reply(db, id, a.step.tenant, a.step.verb, a.now).Unchanged? <==> !db.runs[id].WaitsOn(first.interrupt))
  {
    var reply := Reply(db, id, a.step.tenant, a.step.verb, a.now);
    assert !reply.Changed?;
    RefusedChangesNothing(db, a);
  }

  lemma StepKeepsTenant(db: Db, a: Action, id: string)
    requires DbInv(db) && id in db.runs && id in Next(db, a).runs
    ensures Next(db, a).runs[id].tenant == db.runs[id].tenant
  {
    hide Next;
    RowAfter(db, a, id);
    if Touches(db, a, id) {
      Touched(db, a, id);
      ChangeKeepsRow(db, db.runs[id], a.step.verb, a.now);
    }
  }

  lemma {:induction false} TenantNeverChanges(trace: seq<Action>, id: string, i: nat, j: nat)
    requires i <= j <= |trace| && Alive(trace, id, i, j)
    ensures After(trace, i).runs[id].tenant == After(trace, j).runs[id].tenant
    decreases j
  {
    hide Next;
    if i < j {
      TenantNeverChanges(trace, id, i, j - 1);
      Reachable(trace, j - 1);
      assert id in After(trace, j - 1).runs && id in After(trace, j).runs;
      StepKeepsTenant(After(trace, j - 1), trace[j - 1], id);
    }
  }

  // ---------------------------------------------------------------- when an answer takes effect

  /** An answer to what the run waits on takes effect exactly when its sender may answer, it fits,
      and nothing is stored for that interrupt yet; a stored answer is the one thing it is rolled
      back for. */
  lemma AnswerTakesEffectIff(db: Db, id: string, tenant: string, res: Resolution, mayAnswer: bool, fits: bool, now: Time)
    requires DbInv(db) && Visible(db, id, Some(tenant)) && db.runs[id].WaitsOn(res.interrupt) && res.run == id
    ensures
      var reply := Reply(db, id, Some(tenant), Verb.Resume(res, mayAnswer, fits), now);
      var stored := (id, res.interrupt) in db.resolutions;
      && (reply.Changed? <==> mayAnswer && fits && !stored)
      && (reply == Refused(Integrity) <==> mayAnswer && fits && stored)
      && !reply.Unchanged?
  {
    assert RowInv(db.runs[id]);
  }

  /** The interrupt was answered, to effect, in the run's present life. */
  predicate AnsweredBefore(trace: seq<Action>, n: nat, id: string, interrupt: string)
    requires n <= |trace|
  {
    && n > 0 && id in After(trace, n).runs
    && (|| AnsweredBefore(trace, n - 1, id, interrupt)
        || (&& Touches(After(trace, n - 1), trace[n - 1], id) && trace[n - 1].step.verb.Resume?
            && trace[n - 1].step.verb.resolution.interrupt == interrupt))
  }

  lemma StoredOrNot(db: Db, a: Action, id: string, interrupt: string)
    requires DbInv(db) && id in Next(db, a).runs
    ensures (id, interrupt) in Next(db, a).resolutions <==>
      || (id in db.runs && (id, interrupt) in db.resolutions)
      || (Touches(db, a, id) && a.step.verb.Resume? && a.step.verb.resolution.interrupt == interrupt)
  {
    hide Next;
    if id !in db.runs {
      BornByStart(db, a, id);
      assert (id, interrupt) !in db.resolutions;
    } else if Touches(db, a, id) && a.step.verb.Resume? {
      ResumeRecords(db, a, id);
    } else {
      SameAnswers(db, a, id);
    }
  }

  lemma {:induction false} StoredIffAnsweredBefore(trace: seq<Action>, n: nat, id: string, interrupt: string)
    requires n <= |trace| && id in After(trace, n).runs
    ensures (id, interrupt) in After(trace, n).resolutions <==> AnsweredBefore(trace, n, id, interrupt)
  {
    hide Next;
    if n > 0 {
      var db := After(trace, n - 1);
      Reachable(trace, n - 1);
      StoredOrNot(db, trace[n - 1], id, interrupt);
      if id in db.runs {
        StoredIffAnsweredBefore(trace, n - 1, id, interrupt);
      }
    }
  }

  /** Over every history: a fitting answer, from someone who may give it, to the very question the
      run waits on takes effect exactly when no answer to that interrupt id took effect before in
      the run's life; else it is rolled back and the run goes on waiting. */
  lemma WaitsForGoodIff(trace: seq<Action>, k: nat, id: string)
    requires k < |trace| && trace[k].step.OnRun? && trace[k].step.id == id && trace[k].step.verb.Resume?
    requires trace[k].step.verb.mayAnswer && trace[k].step.verb.fits && trace[k].step.verb.resolution.run == id
    requires trace[k].step.tenant.Some? && Visible(After(trace, k), id, trace[k].step.tenant)
    requires After(trace, k).runs[id].WaitsOn(trace[k].step.verb.resolution.interrupt)
    ensures Touches(After(trace, k), trace[k], id) <==>
      !AnsweredBefore(trace, k, id, trace[k].step.verb.resolution.interrupt)
    ensures !Touches(After(trace, k), trace[k], id) ==>
      && Reply(After(trace, k), id, trace[k].step.tenant, trace[k].step.verb, trace[k].now) == Refused(Integrity)
      && After(trace, k + 1) == After(trace, k)
  {
    hide Next;
    var db, step := After(trace, k), trace[k].step;
    Reachable(trace, k);
    StoredIffAnsweredBefore(trace, k, id, step.verb.resolution.interrupt);
    AnswerTakesEffectIff(db, id, step.tenant.value, step.verb.resolution, true, true, trace[k].now);
    if !Touches(db, trace[k], id) {
      RefusedChangesNothing(db, trace[k]);
    }
  }

  const ASKS := Interrupt("t", "x", "i", None, None, None, "go on?")
  const GOES_ON := Resolution("x", "i", Approve, "yes, at noon")
  const BEGINS := Action(Start("x", "t", Asked("a", None, None, 0, None, ""), None, false), 0.0)
  const PAUSES := Action(OnRun("x", Some("t"), Verb.Pause(ASKS, true, None, None)), 1.0)
  const ANSWERS := Action(OnRun("x", Some("t"), Verb.Resume(GOES_ON, true, true)), 2.0)

  lemma AskedAgain()
    ensures
      var answered := Next(Next(Next(EMPTY, BEGINS), PAUSES), ANSWERS);
      var waiting := Next(answered, PAUSES);
      && Touches(Next(Next(EMPTY, BEGINS), PAUSES), ANSWERS, "x")
      && "x" in waiting.runs && waiting.runs["x"].status.Paused? && waiting.runs["x"].WaitsOn("i")
      && waiting.runs["x"].tenant == "t"
      && Reply(waiting, "x", Some("t"), ANSWERS.step.verb, 2.0) == Refused(Integrity)
      && Next(waiting, ANSWERS) == waiting
  {
    var started := Next(EMPTY, BEGINS);
    assert started.runs["x"] == Started("t", BEGINS.step.asked, None, false, 0.0);
    var paused := Next(started, PAUSES);
    assert paused.runs["x"].awaiting == Some(ASKS);
    var answered := Next(paused, ANSWERS);
    assert answered.runs["x"].status.Running? && ("x", "i") in answered.resolutions;
    var waiting := Next(answered, PAUSES);
    assert waiting.runs["x"].awaiting == Some(ASKS) && ("x", "i") in waiting.resolutions;
  }

  /** It does happen: a run asks, is answered, and asks under the same interrupt id again. The retried
      answer, which the API notes promise a success, is rolled back, and the run stays PAUSED. */
  lemma WaitsForGood()
    ensures
      var trace := [BEGINS, PAUSES, ANSWERS, PAUSES, ANSWERS];
      && Touches(After(trace, 2), trace[2], "x")
      && Reply(After(trace, 4), "x", Some("t"), trace[4].step.verb, trace[4].now) == Refused(Integrity)
      && After(trace, 5) == After(trace, 4) && "x" in After(trace, 5).runs && After(trace, 5).runs["x"].status.Paused?
  {
    hide Next;
    var trace := [BEGINS, PAUSES, ANSWERS, PAUSES, ANSWERS];
    AskedAgain();
    assert After(trace, 1) == Next(After(trace, 0), trace[0]);
    assert After(trace, 2) == Next(After(trace, 1), trace[1]);
    assert After(trace, 3) == Next(After(trace, 2), trace[2]);
    assert After(trace, 4) == Next(After(trace, 3), trace[3]);
    assert After(trace, 5) == Next(After(trace, 4), trace[4]);
  }
}
