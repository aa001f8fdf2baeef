/** The spooler at work: several jobs being connected, written, disconnected and printed in any order, with
    writers that have to wait for a node. */
module SpoolRuns {
  import opened Ring
  import S = Spool

  /** pending is what waiting writers have still to write, begun the jobs for which spool_write was called, done
      those the despooler printed to their end; wrote and printed are what has happened to each job so far. */
  datatype Sys = Sys(s: S.Spool, pending: map<int, seq<Byte>>, wrote: map<int, seq<Byte>>, printed: map<int, seq<Byte>>,
                     begun: set<int>, done: set<int>)

  /** Resume is a waiting writer looking again; GiveUp is the despooler after half a minute of waiting. */
  datatype Step =
    | Connect(key: int)
    | Write(key: int, data: seq<Byte>)
    | Resume(key: int)
    | Disconnect(key: int)
    | Take(key: int)
    | GiveUp(key: int)

  function Pend(t: Sys, k: int): seq<Byte> { if k in t.pending then t.pending[k] else [] }

  /** A job that is neither printed nor given up: what was printed, what its nodes hold and what waits make up
      what was written, and the job's length counts the first two. */
  ghost predicate JobInv(t: Sys, k: int) {
    && S.Shaped(t.s) && k in t.s.jobs && k in t.printed && k in t.wrote && k !in t.done
    && t.printed[k] + S.Contents(t.s, k) + Pend(t, k) == t.wrote[k]
    && t.s.jobs[k].len + |Pend(t, k)| == |t.wrote[k]|
    && (k in t.pending ==> k in t.begun && S.Open(t.s, k) && S.NeedsNode(t.s, k))
    && (k !in t.pending ==> (t.s.jobs[k].chain == [] <==> k !in t.begun))
  }

  ghost predicate GoneInv(t: Sys, k: int) {
    && k in t.printed && k in t.wrote && k !in t.pending
    && t.printed[k] <= t.wrote[k] && (k in t.done ==> t.printed[k] == t.wrote[k])
  }

  ghost predicate Inv(t: Sys) {
    && S.Valid(t.s) && S.Shaped(t.s) && t.s.jobs.Keys + t.pending.Keys <= t.wrote.Keys
    && forall k :: k in t.wrote ==> if k in t.s.jobs then JobInv(t, k) else GoneInv(t, k)
  }

  ghost predicate Enabled(t: Sys, e: Step)
    requires S.Shaped(t.s)
  {
    match e
    case Connect(k) => k != 0 && k !in t.s.jobs
    case Write(k, _) => S.Open(t.s, k) && k !in t.pending
    case Resume(k) => k in t.pending && k in t.s.jobs
    case Disconnect(k) => k in t.s.jobs && k !in t.pending && S.Disconnect(t.s, k).Marked?
    case Take(k) => k in t.s.jobs && t.s.jobs[k].chain != [] && S.Take(t.s, k).Took?
    case GiveUp(k) => k in t.s.jobs && (t.s.jobs[k].chain == [] || S.Take(t.s, k).Filling?)
  }

  function AfterWrite(t: Sys, k: int, r: S.Outcome): Sys {
    t.(s := r.s, begun := t.begun + {k}, pending := if r.Done? then t.pending - {k} else t.pending[k := r.rest])
  }

  function AfterTake(t: Sys, k: int, s: S.Spool, out: seq<Byte>): Sys
    requires k in t.printed
  {
    t.(s := s, printed := t.printed[k := t.printed[k] + out], done := if k in s.jobs then t.done else t.done + {k})
  }

  ghost function Next(t: Sys, e: Step): Sys
    requires Inv(t) && Enabled(t, e)
  {
    match e
    case Connect(k) =>
      Sys(S.Connect(t.s, k), t.pending, t.wrote[k := []], t.printed[k := []], t.begun - {k}, t.done - {k})
    case Write(k, data) =>
      AfterWrite(t.(wrote := t.wrote[k := t.wrote[k] + data]), k, S.Write(t.s, k, data))
    case Resume(k) =>
      AfterWrite(t, k, S.Write(t.s, k, t.pending[k]))
    case Disconnect(k) => t.(s := S.Disconnect(t.s, k).s)
    case Take(k) => AfterTake(t, k, S.Take(t.s, k).s, S.Take(t.s, k).out)
    case GiveUp(k) =>
      t.(s := S.Remove(if t.s.jobs[k].chain == [] then t.s else S.Return(t.s, k), k), pending := t.pending - {k})
  }

  /** A step that leaves a job alone keeps what is known about it. */
  lemma OtherInv(t: Sys, t': Sys, k: int)
    requires JobInv(t, k) && S.JobSame(t.s, t'.s, k) && k in t'.wrote && k in t'.printed
    requires Pend(t', k) == Pend(t, k) && (k in t'.pending <==> k in t.pending)
    requires t'.wrote[k] == t.wrote[k] && t'.printed[k] == t.printed[k]
    requires (k in t'.begun <==> k in t.begun) && (k in t'.done <==> k in t.done)
    ensures JobInv(t', k)
  {
    S.SameJob(t.s, t'.s, k);
  }

  /** Nothing happens to any job but k. */
  ghost predicate Elsewhere(t: Sys, t': Sys, k: int) {
    && S.Valid(t'.s) && S.Shaped(t'.s) && t'.wrote.Keys == t.wrote.Keys + {k} && t'.s.jobs.Keys + {k} == t.s.jobs.Keys + {k}
    && t'.pending.Keys <= t'.wrote.Keys && t'.printed.Keys >= t.printed.Keys
    && forall j :: j in t.wrote && j != k ==>
         && (j in t.s.jobs ==> S.JobSame(t.s, t'.s, j))
         && (j in t'.pending <==> j in t.pending) && Pend(t', j) == Pend(t, j)
         && t'.wrote[j] == t.wrote[j] && (j in t.printed ==> t'.printed[j] == t.printed[j])
         && (j in t'.begun <==> j in t.begun) && (j in t'.done <==> j in t.done)
  }

  lemma InvFrom(t: Sys, t': Sys, k: int)
    requires Inv(t) && Elsewhere(t, t', k)
    requires if k in t'.s.jobs then JobInv(t', k) else GoneInv(t', k)
    ensures Inv(t')
  {
    hide S.Valid;
    hide S.Contents;
    hide S.JobSame;
    forall j | j in t'.wrote && j != k
      ensures if j in t'.s.jobs then JobInv(t', j) else GoneInv(t', j)
    {
      assert j in t'.s.jobs <==> j in t.s.jobs by {
        assert j in t'.s.jobs.Keys + {k} <==> j in t.s.jobs.Keys + {k};
      }
      if j in t.s.jobs {
        OtherInv(t, t', j);
      }
    }
  }

  lemma ConnectInv(t: Sys, k: int)
    requires Inv(t) && Enabled(t, Connect(k))
    ensures Inv(Next(t, Connect(k)))
  {
    hide S.Valid;
    hide S.Contents;
    S.ConnectValid(t.s, k);
    var t' := Next(t, Connect(k));
    assert k in t.wrote ==> GoneInv(t, k);
    assert JobInv(t', k);
    InvFrom(t, t', k);
  }

  /** A call of spool_write, or what is left of one. */
  lemma AfterWriteInv(t: Sys, t1: Sys, k: int, data: seq<Byte>)
    requires Inv(t) && k in t.s.jobs && S.Open(t.s, k) && S.Shaped(t.s)
    requires t1.s == t.s && t1.printed == t.printed && t1.pending == t.pending && t1.begun == t.begun && t1.done == t.done
    requires k in t.wrote && k in t.printed && k in t1.wrote && t1.wrote == t.wrote[k := t1.wrote[k]]
    requires t.printed[k] + S.Contents(t.s, k) + data == t1.wrote[k] && t.s.jobs[k].len + |data| == |t1.wrote[k]|
    ensures Inv(AfterWrite(t1, k, S.Write(t.s, k, data)))
  {
    hide S.Valid;
    hide S.Contents;
    hide S.Write;
    S.WriteExact(t.s, k, data);
    var r := S.Write(t.s, k, data);
    var t' := AfterWrite(t1, k, r);
    assert JobInv(t, k);
    assert Pend(t', k) == S.Rest(r);
    S.Assoc(t.printed[k], S.Contents(r.s, k), S.Rest(r));
    S.Assoc(t.printed[k], S.Contents(t.s, k), data);
    assert JobInv(t', k);
    InvFrom(t, t', k);
  }

  lemma WriteInv(t: Sys, k: int, data: seq<Byte>)
    requires Inv(t) && Enabled(t, Write(k, data))
    ensures Inv(Next(t, Write(k, data)))
  {
    hide S.Valid;
    hide S.Contents;
    hide S.Write;
    assert JobInv(t, k);
    S.NothingMore(t.printed[k] + S.Contents(t.s, k));
    AfterWriteInv(t, t.(wrote := t.wrote[k := t.wrote[k] + data]), k, data);
  }

  lemma ResumeInv(t: Sys, k: int)
    requires Inv(t) && Enabled(t, Resume(k))
    ensures Inv(Next(t, Resume(k)))
  {
    hide S.Valid;
    hide S.Contents;
    hide S.Write;
    assert JobInv(t, k) && t.wrote == t.wrote[k := t.wrote[k]];
    AfterWriteInv(t, t, k, t.pending[k]);
  }

  lemma DisconnectInv(t: Sys, k: int)
    requires Inv(t) && Enabled(t, Disconnect(k))
    ensures Inv(Next(t, Disconnect(k)))
  {
    hide S.Valid;
    hide S.Contents;
    assert JobInv(t, k);
    S.DisconnectValid(t.s, k);
    hide S.Disconnect;
    var t' := Next(t, Disconnect(k));
    assert t'.s == S.Disconnect(t.s, k).s;
    assert JobInv(t', k);
    InvFrom(t, t', k);
  }

  lemma TakeInv(t: Sys, k: int)
    requires Inv(t) && Enabled(t, Take(k))
    ensures Inv(Next(t, Take(k)))
  {
    hide S.Valid;
    hide S.Contents;
    assert JobInv(t, k);
    S.TakeExact(t.s, k);
    var s, out := S.Take(t.s, k).s, S.Take(t.s, k).out;
    hide S.Take;
    var t' := Next(t, Take(k));
    assert t' == AfterTake(t, k, s, out);
    if k in s.jobs {
      S.Assoc(t.printed[k], out, S.Contents(s, k));
      S.StillLast(t.s, s, k);
      assert JobInv(t', k);
    } else {
      S.NothingMore(out);
      S.NothingMore(t.printed[k] + out);
    }
    InvFrom(t, t', k);
  }

  lemma GiveUpInv(t: Sys, k: int)
    requires Inv(t) && Enabled(t, GiveUp(k))
    ensures Inv(Next(t, GiveUp(k)))
  {
    assert JobInv(t, k);
    S.GaveUp(t.s, k);
    hide S.Valid;
    hide S.Contents;
    var t' := Next(t, GiveUp(k));
    hide S.Return;
    hide S.Remove;
    hide S.Take;
    assert GoneInv(t', k);
    S.Assoc(t.printed[k], S.Contents(t.s, k), Pend(t, k));
    InvFrom(t, t', k);
  }

  lemma StepKeepsInv(t: Sys, e: Step)
    requires Inv(t) && Enabled(t, e)
    ensures Inv(Next(t, e))
  {
    hide Inv;
    match e
    case Connect(k) => ConnectInv(t, k);
    case Write(k, data) => WriteInv(t, k, data);
    case Resume(k) => ResumeInv(t, k);
    case Disconnect(k) => DisconnectInv(t, k);
    case Take(k) => TakeInv(t, k);
    case GiveUp(k) => GiveUpInv(t, k);
  }

  // ----- runs -----

  ghost predicate Init(t: Sys) {
    S.Valid(t.s) && t.s.jobs == map[] && t == Sys(t.s, map[], map[], map[], {}, {})
  }

  ghost predicate IsRun(run: seq<Sys>, es: seq<Step>) {
    && |run| == |es| + 1 && Init(run[0])
    && forall i :: 0 <= i < |es| ==> StepTo(run[i], es[i], run[i + 1])
  }

  /** Next is defined where the invariant holds; RunKeepsInv says that this is everywhere. */
  ghost predicate StepTo(t: Sys, e: Step, t': Sys) { Inv(t) ==> Enabled(t, e) && t' == Next(t, e) }

  lemma {:induction false} RunKeepsInv(run: seq<Sys>, es: seq<Step>, n: nat)
    requires IsRun(run, es) && n < |run|
    ensures Inv(run[n])
  {
    if n > 0 {
      RunKeepsInv(run, es, n - 1);
      assert StepTo(run[n - 1], es[n - 1], run[n]);
      StepKeepsInv(run[n - 1], es[n - 1]);
    }
  }

  /** In every state of every run the despooler has printed of each job the beginning of what was written to it,
      and all of it when it printed the job to its end. */
  lemma PrintsWhatWasWritten(run: seq<Sys>, es: seq<Step>, n: nat, k: int)
    requires IsRun(run, es) && n < |run| && k in run[n].wrote
    ensures k in run[n].printed && run[n].printed[k] <= run[n].wrote[k]
    ensures k in run[n].done ==> run[n].printed[k] == run[n].wrote[k]
  {
    RunKeepsInv(run, es, n);
    var t := run[n];
    if k in t.s.jobs {
      assert JobInv(t, k);
      hide S.Contents;
      S.Assoc(t.printed[k], S.Contents(t.s, k), Pend(t, k));
    } else {
      assert GoneInv(t, k);
    }
  }

  /** spool_disconnect follows a null pointer exactly when nothing, not even nothing, was written to the job. */
  lemma DisconnectsNullIff(t: Sys, k: int)
    requires Inv(t) && k in t.s.jobs && k !in t.pending
    ensures S.Disconnect(t.s, k).NullNode? <==> k !in t.begun
  {
    assert JobInv(t, k);
  }

  /** The despooler follows a null link exactly when a job that is not ended has one node and 1024 bytes in it. */
  lemma NoNextIff(t: Sys, k: int)
    requires Inv(t) && k in t.s.jobs && t.s.jobs[k].chain != []
    ensures S.Take(t.s, k).NoNext? <==>
            |t.s.jobs[k].chain| == 1 && !S.Ended(t.s, k) && t.s.jobs[k].len - |t.printed[k]| == S.SZDATA
  {
    assert JobInv(t, k);
    S.TakeExact(t.s, k);
  }

  /** The inputs: a new job that is disconnected at once, and one to which a block is written before the despooler
      looks. */
  lemma NewJobFails(t: Sys, k: int, data: seq<Byte>)
    requires Inv(t) && Enabled(t, Connect(k)) && t.s.free != [] && |data| == S.SZDATA
    ensures var t1 := Next(t, Connect(k));
            S.Disconnect(t1.s, k).NullNode? && Inv(t1) && Enabled(t1, Write(k, data))
    ensures var t2 := Next(Next(t, Connect(k)), Write(k, data)).s;
            k in t2.jobs && t2.jobs[k].chain != [] && S.Take(t2, k).NoNext?
  {
    ConnectInv(t, k);
    S.FirstBlock(S.Connect(t.s, k), k, data);
  }
}
