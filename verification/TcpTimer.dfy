/** The TCP timer queue (tmset, tmclear, tmleft, tcptimer): a list of differences that stands for a map
    from timers to the time they have left. */
module TcpTimer {

  const TIMERGRAN := 10

  /** A timer is identified by the port and the message that it will send there. */
  datatype Key = Key(port: int, msg: int)

  /** left is the time after the entry before it runs out. */
  datatype Entry = Entry(key: Key, portlen: int, time: int, left: int)

  function Delay(q: seq<Entry>, i: int, d: int): seq<Entry> {
    if 0 <= i < |q| then q[i := q[i].(left := q[i].left + d)] else q
  }

  /** The place of a timer, or the queue's length. */
  function Find(q: seq<Entry>, k: Key): (i: nat)
    ensures i <= |q| && (i < |q| ==> q[i].key == k)
    ensures forall j :: 0 <= j < i ==> q[j].key != k
  {
    if q == [] || q[0].key == k then 0 else 1 + Find(q[1..], k)
  }

  /** tmclear: the entry behind inherits the time. */
  function Clear(q: seq<Entry>, k: Key): seq<Entry> {
    if q == [] then []
    else if q[0].key == k then Delay(q[1..], 0, q[0].left)
    else [q[0]] + Clear(q[1..], k)
  }

  /** The insertion of tmset. */
  function Insert(q: seq<Entry>, e: Entry): seq<Entry> {
    if q == [] then [e]
    else if e.left < q[0].left then [e] + Delay(q, 0, -e.left)
    else [q[0]] + Insert(q[1..], e.(left := e.left - q[0].left))
  }

  function Set(q: seq<Entry>, e: Entry): seq<Entry> { Insert(Clear(q, e.key), e) }

  predicate Has(q: seq<Entry>, k: Key) { exists i :: 0 <= i < |q| && q[i].key == k }

  /** tmleft: the time until a timer runs out, counted from the last run of the timer process. */
  function Left(q: seq<Entry>, k: Key): int {
    if q == [] then 0
    else if q[0].key == k then q[0].left
    else if Has(q[1..], k) then q[0].left + Left(q[1..], k)
    else 0
  }

  /** The entries that run out within delta, and the queue after them. */
  function Fire(q: seq<Entry>, delta: int): (seq<Entry>, seq<Entry>) {
    if q == [] then ([], [])
    else if q[0].left <= delta then var (f, r) := Fire(q[1..], delta - q[0].left); ([q[0]] + f, r)
    else ([], Delay(q, 0, -delta))
  }

  predicate Positive(q: seq<Entry>) { forall i :: 0 <= i < |q| ==> q[i].left >= 0 }

  predicate Unique(q: seq<Entry>) { forall i, j :: 0 <= i < j < |q| ==> q[i].key != q[j].key }

  lemma HasRest(q: seq<Entry>, k: Key)
    requires q != []
    ensures Has(q, k) <==> q[0].key == k || Has(q[1..], k)
  {
    if Has(q[1..], k) {
      var i :| 0 <= i < |q[1..]| && q[1..][i].key == k;
      assert q[i + 1].key == k;
    }
    if Has(q, k) {
      var i :| 0 <= i < |q| && q[i].key == k;
      assert i > 0 ==> q[1..][i - 1].key == k;
    }
  }

  lemma UniqueRest(q: seq<Entry>)
    requires Unique(q) && q != []
    ensures Unique(q[1..]) && !Has(q[1..], q[0].key)
  {
  }

  lemma UniqueCons(e: Entry, q: seq<Entry>)
    requires Unique(q) && !Has(q, e.key)
    ensures Unique([e] + q)
  {
  }

  lemma {:induction false} LeftPositive(q: seq<Entry>, k: Key)
    requires Positive(q)
    ensures Left(q, k) >= 0
  {
    if q != [] {
      LeftPositive(q[1..], k);
    }
  }

  /** Delaying the first entry delays everything. */
  lemma DelayedAll(q: seq<Entry>, d: int, k: Key)
    requires q != []
    ensures Has(Delay(q, 0, d), k) <==> Has(q, k)
    ensures Has(q, k) ==> Left(Delay(q, 0, d), k) == Left(q, k) + d
    ensures Unique(q) ==> Unique(Delay(q, 0, d))
  {
    var r := Delay(q, 0, d);
    assert r[1..] == q[1..];
    HasRest(q, k);
    HasRest(r, k);
  }

  /** tmclear removes the one timer and leaves every other its time. */
  lemma {:induction false} ClearExact(q: seq<Entry>, c: Key, k: Key)
    requires Unique(q) && Positive(q)
    ensures var r := Clear(q, c);
            && Unique(r) && Positive(r)
            && (Has(r, k) <==> Has(q, k) && k != c)
            && (Has(r, k) ==> Left(r, k) == Left(q, k))
  {
    if q != [] {
      UniqueRest(q);
      HasRest(q, k);
      if q[0].key == c {
        if q[1..] != [] {
          DelayedAll(q[1..], q[0].left, k);
        }
      } else {
        ClearExact(q[1..], c, k);
        ClearExact(q[1..], c, q[0].key);
        var r := Clear(q, c);
        assert r[1..] == Clear(q[1..], c);
        HasRest(r, k);
        UniqueCons(q[0], Clear(q[1..], c));
      }
    }
  }

  /** A new timer runs out when it was asked to, and every other keeps its time. */
  lemma {:induction false} InsertExact(q: seq<Entry>, e: Entry, k: Key)
    requires Unique(q) && Positive(q) && !Has(q, e.key) && e.left >= 0
    ensures var r := Insert(q, e);
            && Unique(r) && Positive(r)
            && (Has(r, k) <==> Has(q, k) || k == e.key)
            && (Has(r, k) ==> Left(r, k) == if k == e.key then e.left else Left(q, k))
  {
    var r := Insert(q, e);
    if q == [] {
      assert r[1..] == [];
      HasRest(r, k);
    } else if e.left < q[0].left {
      assert r[1..] == Delay(q, 0, -e.left);
      DelayedAll(q, -e.left, k);
      DelayedAll(q, -e.left, e.key);
      HasRest(r, k);
      UniqueCons(e, Delay(q, 0, -e.left));
    } else {
      UniqueRest(q);
      HasRest(q, k);
      HasRest(q, e.key);
      var e1 := e.(left := e.left - q[0].left);
      InsertExact(q[1..], e1, k);
      InsertExact(q[1..], e1, q[0].key);
      assert r[1..] == Insert(q[1..], e1);
      HasRest(r, k);
      UniqueCons(q[0], Insert(q[1..], e1));
    }
  }

  /** tmset, then tmleft: the time asked for; and nothing else has changed. */
  lemma SetExact(q: seq<Entry>, e: Entry, k: Key)
    requires Unique(q) && Positive(q) && e.left >= 0
    ensures var r := Set(q, e);
            && Unique(r) && Positive(r)
            && (Has(r, k) <==> Has(q, k) || k == e.key)
            && Left(r, e.key) == e.left
            && (k != e.key && Has(q, k) ==> Left(r, k) == Left(q, k))
  {
    ClearExact(q, e.key, k);
    ClearExact(q, e.key, e.key);
    InsertExact(Clear(q, e.key), e, k);
    InsertExact(Clear(q, e.key), e, e.key);
  }

  /** A timer set later for the same moment runs out later: it goes behind all that are due no later. */
  lemma {:induction false} TiesAreFifo(q: seq<Entry>, e: Entry, k: Key)
    requires Unique(q) && Positive(q) && !Has(q, e.key) && e.left >= 0 && Has(q, k)
    ensures var r := Insert(q, e);
            Left(q, k) <= e.left <==> Find(r, k) < Find(r, e.key)
  {
    var r := Insert(q, e);
    HasRest(q, k);
    UniqueRest(q);
    if e.left < q[0].left {
      assert r[0] == e;
      LeftAtLeastFirst(q, k);
    } else {
      HasRest(q, e.key);
      assert r[0] == q[0] && r[1..] == Insert(q[1..], e.(left := e.left - q[0].left));
      if q[0].key != k {
        TiesAreFifo(q[1..], e.(left := e.left - q[0].left), k);
      }
    }
  }

  lemma LeftAtLeastFirst(q: seq<Entry>, k: Key)
    requires Positive(q) && Has(q, k)
    ensures Left(q, k) >= q[0].left
  {
    HasRest(q, k);
    LeftPositive(q[1..], k);
  }

  /** One run of the timer process, delta after the last: exactly the timers due within delta fire, and the
      others have delta less to go. */
  lemma {:induction false} FireExact(q: seq<Entry>, delta: int, k: Key)
    requires Unique(q) && Positive(q) && delta >= 0
    ensures var (f, r) := Fire(q, delta);
            && |f| + |r| == |q| && Unique(r) && Positive(r)
            && (Has(f, k) <==> Has(q, k) && Left(q, k) <= delta)
            && (Has(r, k) <==> Has(q, k) && Left(q, k) > delta)
            && (Has(r, k) ==> Left(r, k) == Left(q, k) - delta)
  {
    if q != [] {
      UniqueRest(q);
      HasRest(q, k);
      var (f, r) := Fire(q, delta);
      if q[0].left <= delta {
        FireExact(q[1..], delta - q[0].left, k);
        assert f[1..] == Fire(q[1..], delta - q[0].left).0;
        HasRest(f, k);
      } else {
        DelayedAll(q, -delta, k);
        if Has(q, k) {
          LeftAtLeastFirst(q, k);
        }
      }
    }
  }

  /** They fire in the order in which they are due. */
  lemma {:induction false} FireInOrder(q: seq<Entry>, delta: int, i: nat, j: nat)
    requires Unique(q) && Positive(q) && i <= j < |Fire(q, delta).0|
    ensures |Fire(q, delta).0| <= |q| && Fire(q, delta).0 == q[..|Fire(q, delta).0|]
    ensures Left(q, q[i].key) <= Left(q, q[j].key)
  {
    var f := Fire(q, delta).0;
    var f1 := Fire(q[1..], delta - q[0].left).0;
    UniqueRest(q);
    assert f == [q[0]] + f1;
    if j == 0 {
      FirstFired(q[1..], delta - q[0].left);
    } else {
      var i1 := if i == 0 then 0 else i - 1;
      FireInOrder(q[1..], delta - q[0].left, i1, j - 1);
      assert q[1..][j - 1] == q[j] && Has(q[1..], q[j].key);
      LeftPositive(q[1..], q[j].key);
      if i > 0 {
        assert q[1..][i - 1] == q[i] && Has(q[1..], q[i].key);
      }
    }
  }

  lemma {:induction false} FirstFired(q: seq<Entry>, delta: int)
    ensures |Fire(q, delta).0| <= |q| && Fire(q, delta).0 == q[..|Fire(q, delta).0|]
  {
    if q != [] && q[0].left <= delta {
      FirstFired(q[1..], delta - q[0].left);
    }
  }

  // ----- the timer process -----

  /** The time that tcptimer takes to have passed; a jump of the clock is replaced by an estimate. */
  function Elapsed(now: int, lastrun: int): (d: int)
    ensures d >= 0
  {
    var d := now - lastrun;
    if d < 0 || d > TIMERGRAN * 100 then TIMERGRAN * 10 else d
  }

  /** What happens to the queue: a turn of the timer process, tmset, tmclear. */
  datatype Event = Runs(at: int) | Sets(e: Entry) | Clears(key: Key)

  function After(q: seq<Entry>, lastrun: int, es: seq<Event>): seq<Entry>
    decreases |es|
  {
    if es == [] then q
    else match es[0]
      case Runs(at) => After(Fire(q, Elapsed(at, lastrun)).1, at, es[1..])
      case Sets(e) => After(Set(q, e), lastrun, es[1..])
      case Clears(k) => After(Clear(q, k), lastrun, es[1..])
  }

  function LastRun(lastrun: int, es: seq<Event>): int
    decreases |es|
  {
    if es == [] then lastrun else LastRun(if es[0].Runs? then es[0].at else lastrun, es[1..])
  }

  /** The time that the turns take to have passed. */
  function Spent(lastrun: int, es: seq<Event>): (d: int)
    ensures d >= 0
    decreases |es|
  {
    if es == [] then 0
    else if es[0].Runs? then Elapsed(es[0].at, lastrun) + Spent(es[0].at, es[1..])
    else Spent(lastrun, es[1..])
  }

  /** The clock does not go back from now on, and timer k is left alone. */
  predicate Leaves(es: seq<Event>, now: int, k: Key)
    decreases |es|
  {
    es == [] || match es[0]
      case Runs(at) => now <= at && Leaves(es[1..], at, k)
      case Sets(e) => e.key != k && e.left >= 0 && Leaves(es[1..], now, k)
      case Clears(c) => c != k && Leaves(es[1..], now, k)
  }

  /** Over any number of turns, with other timers coming and going, a timer fires exactly when the time that
      the turns take to have passed adds up to what it has left. */
  lemma {:induction false} FiresWhenSpent(q: seq<Entry>, lastrun: int, es: seq<Event>, now: int, k: Key)
    requires Unique(q) && Positive(q) && Leaves(es, now, k) && (Has(q, k) ==> Left(q, k) > 0)
    ensures var r := After(q, lastrun, es);
            && Unique(r) && Positive(r)
            && (Has(r, k) <==> Has(q, k) && Left(q, k) > Spent(lastrun, es))
            && (Has(r, k) ==> Left(r, k) == Left(q, k) - Spent(lastrun, es))
    decreases |es|
  {
    hide Unique;
    hide Positive;
    hide Has;
    hide Left;
    hide Fire;
    hide Elapsed;
    hide Set;
    hide Clear;
    if es != [] {
      match es[0]
      case Runs(at) =>
        FireExact(q, Elapsed(at, lastrun), k);
        FiresWhenSpent(Fire(q, Elapsed(at, lastrun)).1, at, es[1..], at, k);
      case Sets(e) =>
        SetExact(q, e, k);
        FiresWhenSpent(Set(q, e), lastrun, es[1..], now, k);
      case Clears(c) =>
        ClearExact(q, c, k);
        FiresWhenSpent(Clear(q, c), lastrun, es[1..], now, k);
    }
  }

  /** The turns from now on take no more to have passed than did pass, and what had passed since the last turn
      before, up to ten seconds. */
  lemma {:induction false} SpentAtMost(lastrun: int, es: seq<Event>, now: int, k: Key)
    requires lastrun <= now && Leaves(es, now, k)
    ensures LastRun(lastrun, es) >= lastrun
    ensures Spent(lastrun, es) > 0 ==> Spent(lastrun, es) <= LastRun(lastrun, es) - now + Over(now - lastrun)
    decreases |es|
  {
    if es != [] {
      match es[0]
      case Runs(at) => SpentAtMost(at, es[1..], at, k);
      case Sets(e) => SpentAtMost(lastrun, es[1..], now, k);
      case Clears(c) => SpentAtMost(lastrun, es[1..], now, k);
    }
  }

  function Over(idle: int): int { if idle > TIMERGRAN * 100 then TIMERGRAN * 100 else idle }

  /** A timer fires too early by no more than the time since the last turn when it was set, and never by more
      than ten seconds. */
  lemma HowEarly(q: seq<Entry>, e: Entry, lastrun: int, now: int, es: seq<Event>)
    requires Unique(q) && Positive(q) && e.left > 0 && lastrun <= now && Leaves(es, now, e.key)
    ensures !Has(After(Set(q, e), lastrun, es), e.key) ==> now + e.left - Over(now - lastrun) <= LastRun(lastrun, es)
  {
    SetExact(q, e, e.key);
    FiresWhenSpent(Set(q, e), lastrun, es, now, e.key);
    SpentAtMost(lastrun, es, now, e.key);
  }

  /** A turn now, and one at each of the next n ticks. */
  function Every(now: int, n: nat): seq<Event>
    decreases n
  {
    [Runs(now)] + if n == 0 then [] else Every(now + 1, n - 1)
  }

  lemma {:induction false} EverySpent(lastrun: int, now: int, n: nat, k: Key)
    ensures Spent(lastrun, Every(now, n)) == Elapsed(now, lastrun) + n
    ensures LastRun(lastrun, Every(now, n)) == now + n && Leaves(Every(now, n), now, k)
    decreases n
  {
    var es := Every(now, n);
    assert es[0] == Runs(now);
    if n == 0 {
      assert es[1..] == [];
    } else {
      assert es[1..] == Every(now + 1, n - 1);
      EverySpent(now, now + 1, n - 1, k);
    }
  }

  /** A timer set when the process has just run never fires too early, whatever happens to others and however
      long it runs; set at any other time, it may. */
  lemma EarlyUnlessJustRun(q: seq<Entry>, e: Entry, lastrun: int, now: int)
    requires Unique(q) && Positive(q) && e.left > 0 && lastrun <= now
    ensures now == lastrun <==>
            forall es :: Leaves(es, now, e.key) && !Has(After(Set(q, e), lastrun, es), e.key) ==> now + e.left <= LastRun(lastrun, es)
  {
    if now == lastrun {
      forall es | Leaves(es, now, e.key) && !Has(After(Set(q, e), lastrun, es), e.key)
        ensures now + e.left <= LastRun(lastrun, es)
      {
        HowEarly(q, e, lastrun, now, es);
      }
    } else {
      var d := Elapsed(now, lastrun);
      var es := Every(now, if d < e.left then e.left - d else 0);
      EverySpent(lastrun, now, if d < e.left then e.left - d else 0, e.key);
      SetExact(q, e, e.key);
      FiresWhenSpent(Set(q, e), lastrun, es, now, e.key);
      assert Leaves(es, now, e.key) && !Has(After(Set(q, e), lastrun, es), e.key);
    }
  }

  // ----- in place -----

  class TimerQueue {
    var tq: seq<Entry>       // the list from tqhead on
    var ticks: int           // ticks_10ms
    var lastrun: int

    constructor (now: int)
      ensures tq == [] && ticks == now && lastrun == now
    {
      tq, ticks, lastrun := [], now, now;
    }

    /** Returns how long the timer has been set, or -1. */
    method TmClear(k: Key) returns (timespent: int)
      modifies this`tq
      ensures tq == Clear(old(tq), k)
      ensures timespent == if Has(old(tq), k) then ticks - old(tq)[Find(old(tq), k)].time else -1
    {
      hide Clear;
      hide Find;
      ghost var q := tq;
      var i := 0;
      assert q[0..] == q && [] + Clear(q, k) == Clear(q, k);
      while i < |tq|
        invariant 0 <= i <= |q| && tq == q && Clear(q, k) == q[..i] + Clear(q[i..], k)
        invariant Find(q, k) == i + Find(q[i..], k)
      {
        ClearAt(q, k, i);
        if tq[i].key == k {
          timespent := ticks - tq[i].time;
          var left := tq[i].left;
          tq := tq[..i] + tq[i + 1..];
          if i < |tq| {
            tq := tq[i := tq[i].(left := tq[i].left + left)];
          }
          return;
        }
        i := i + 1;
      }
      ClearEnd(q, k);
      return -1;
    }

    lemma ClearAt(q: seq<Entry>, k: Key, i: nat)
      requires i < |q|
      ensures if q[i].key == k then Find(q[i..], k) == 0 && q[..i] + Clear(q[i..], k) == Delay(q[..i] + q[i + 1..], i, q[i].left)
              else Find(q[i..], k) == 1 + Find(q[i + 1..], k) && q[..i] + Clear(q[i..], k) == q[..i + 1] + Clear(q[i + 1..], k)
    {
      assert q[i..][1..] == q[i + 1..];
      if q[i].key == k {
        assert Delay(q[..i] + q[i + 1..], i, q[i].left) == q[..i] + Delay(q[i + 1..], 0, q[i].left);
      } else {
        assert q[..i] + ([q[i]] + Clear(q[i + 1..], k)) == q[..i + 1] + Clear(q[i + 1..], k);
      }
    }

    lemma ClearEnd(q: seq<Entry>, k: Key)
      ensures q[..|q|] + Clear(q[|q|..], k) == q && Find(q[|q|..], k) == 0
    {
    }

    method TmSet(k: Key, portlen: int, time: int)
      modifies this`tq
      ensures tq == Set(old(tq), Entry(k, portlen, ticks, time))
    {
      hide Insert;
      hide Clear;
      var spent := TmClear(k);
      ghost var q, e := tq, Entry(k, portlen, ticks, time);
      var left, i := time, 0;
      assert q[0..] == q && [] + Insert(q, e) == Insert(q, e);
      while i < |tq| && left >= tq[i].left
        invariant 0 <= i <= |q| && tq == q && Insert(q, e) == q[..i] + Insert(q[i..], e.(left := left))
      {
        InsertStep(q, e, left, i);
        left := left - tq[i].left;
        i := i + 1;
      }
      if i < |tq| {
        tq := tq[i := tq[i].(left := tq[i].left - left)];
      }
      tq := tq[..i] + [Entry(k, portlen, ticks, left)] + tq[i..];
      Inserted(q, e, left, i);
    }

    lemma InsertStep(q: seq<Entry>, e: Entry, left: int, i: nat)
      requires i < |q| && left >= q[i].left
      ensures q[..i] + Insert(q[i..], e.(left := left)) == q[..i + 1] + Insert(q[i + 1..], e.(left := left - q[i].left))
    {
      assert q[i..][1..] == q[i + 1..] && q[..i + 1] == q[..i] + [q[i]];
    }

    lemma Inserted(q: seq<Entry>, e: Entry, left: int, i: nat)
      requires i <= |q| && (i < |q| ==> left < q[i].left)
      ensures var e1 := e.(left := left);
              q[..i] + Insert(q[i..], e1) ==
              if i < |q| then q[..i] + [e1] + q[i := q[i].(left := q[i].left - left)][i..] else q[..i] + [e1] + q[i..]
    {
      if i < |q| {
        assert q[i := q[i].(left := q[i].left - left)][i..] == Delay(q[i..], 0, -left);
      }
    }

    method TmLeft(k: Key) returns (timeleft: int)
      ensures timeleft == Left(tq, k)
    {
      timeleft := 0;
      var i := 0;
      assert tq[0..] == tq;
      while i < |tq|
        invariant 0 <= i <= |tq| && (Has(tq, k) <==> Has(tq[i..], k))
        invariant Has(tq, k) ==> Left(tq, k) == timeleft + Left(tq[i..], k)
      {
        assert tq[i..][1..] == tq[i + 1..];
        HasRest(tq[i..], k);
        timeleft := timeleft + tq[i].left;
        if tq[i].key == k {
          return;
        }
        i := i + 1;
      }
      AbsentLeft(tq, k);
      return 0;
    }

    lemma AbsentLeft(q: seq<Entry>, k: Key)
      requires !Has(q, k)
      ensures Left(q, k) == 0
    {
      if q != [] {
        HasRest(q, k);
      }
    }

    /** One turn of tcptimer; the messages of the timers that fire, in order. */
    method Run() returns (fired: seq<Entry>)
      modifies this`tq, this`lastrun
      ensures (fired, tq) == Fire(old(tq), Elapsed(ticks, old(lastrun))) && lastrun == ticks
    {
      var now := ticks;
      var delta := now - lastrun;
      if delta < 0 || delta > TIMERGRAN * 100 {
        delta := TIMERGRAN * 10;
      }
      lastrun := now;
      hide Fire;
      ghost var all := Fire(tq, delta);
      fired := [];
      assert [] + Fire(tq, delta).0 == Fire(tq, delta).0;
      while tq != [] && tq[0].left <= delta
        invariant lastrun == now && all == FireOn(fired, tq, delta)
        decreases |tq|
      {
        FireStep(fired, tq, delta);
        delta := delta - tq[0].left;
        fired := fired + [tq[0]];
        tq := tq[1..];
      }
      FireEnd(fired, tq, delta);
      if tq != [] {
        tq := tq[0 := tq[0].(left := tq[0].left - delta)];
      }
    }

    ghost function FireOn(fired: seq<Entry>, q: seq<Entry>, delta: int): (seq<Entry>, seq<Entry>) {
      (fired + Fire(q, delta).0, Fire(q, delta).1)
    }

    lemma FireStep(fired: seq<Entry>, q: seq<Entry>, delta: int)
      requires q != [] && q[0].left <= delta
      ensures FireOn(fired, q, delta) == FireOn(fired + [q[0]], q[1..], delta - q[0].left)
    {
      var rest := Fire(q[1..], delta - q[0].left).0;
      assert fired + ([q[0]] + rest) == fired + [q[0]] + rest;
    }

    lemma FireEnd(fired: seq<Entry>, q: seq<Entry>, delta: int)
      requires q != [] ==> q[0].left > delta
      ensures FireOn(fired, q, delta) == (fired, Delay(q, 0, -delta))
    {
      assert fired + [] == fired;
    }
  }
}
