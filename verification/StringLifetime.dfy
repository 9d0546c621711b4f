/**
 How long a value lives, told from the calls alone: from the SET that wrote it to its
 deadline, to the EXPIRE that moved the deadline, or to the DEL that removed it.
 */
module StringLifetime {
  import opened Options
  import opened StringTier
  import opened Text
  import Glob

  /** A value and the time from which it is gone. */
  datatype Record = Record(value: Bytes, until: Option<nat>)

  /** Readable at a time: there is no deadline, or the time is before it. */
  predicate Readable(r: Option<Record>, now: nat) {
    r.Some? && (r.value.until.None? || now < r.value.until.value)
  }

  /** What an operation makes of the value of one key. */
  function Written(before: Option<Record>, op: Op, now: nat, k: Bytes): Option<Record> {
    match op
    case Set(key, v, ttl) =>
      if key != k then before else Some(Record(v, if ttl.None? then None else Some(now + ttl.value)))
    case Expire(key, d) =>
      if key == k && Readable(before, now) then Some(Record(before.value.value, Some(now + d))) else before
    case Del(key) => if key == k then None else before
    case _ => before
  }

  /** The value of one key by the end of a run. */
  function History(before: Option<Record>, run: seq<Event>, k: Bytes): Option<Record>
    decreases |run|
  {
    if run == [] then before else History(Written(before, run[0].op, run[0].now, k), run[1..], k)
  }

  /** The cache holds what was written while it is readable; after that it may or may not have been reclaimed. */
  predicate Holds(s: State, k: Bytes, r: Option<Record>, now: nat) {
    && (Readable(r, now) ==> k in s.strings)
    && (k in s.strings ==> r.Some? && s.strings[k] == Entry(r.value.value, r.value.until))
  }

  lemma StepHolds(s: State, op: Op, now: nat, k: Bytes, r: Option<Record>, before: nat)
    requires Holds(s, k, r, before) && before <= now
    ensures Holds(Step(s, op, now).0, k, Written(r, op, now, k), now)
  {
    hide Glob.Literal, Dead;
  }

  lemma {:induction false} RunHolds(s: State, run: seq<Event>, start: nat, k: Bytes, r: Option<Record>, u: nat)
    requires Holds(s, k, r, start) && Clocked(run, start) && start <= u && (run != [] ==> run[|run| - 1].now <= u)
    ensures Holds(Run(s, run), k, History(r, run, k), u)
    decreases |run|
  {
    hide Step, Written;
    if run != [] {
      var e, rest := run[0], run[1..];
      StepHolds(s, e.op, e.now, k, r, start);
      ClockedTo(run, start);
      RunHolds(Step(s, e.op, e.now).0, rest, e.now, k, Written(r, e.op, e.now, k), u);
    }
  }

  lemma {:induction false} ClockedTo(run: seq<Event>, start: nat)
    requires Clocked(run, start) && run != []
    ensures run[0].now <= run[|run| - 1].now
    decreases |run|
  {
    if |run| > 1 { ClockedTo(run[1..], run[0].now); }
  }

  /** What each operation on the key answers, given what was written. */
  lemma HeldAnswers(s: State, k: Bytes, r: Option<Record>, u: nat)
    requires Holds(s, k, r, u)
    ensures var alive := Readable(r, u);
            && Step(s, Get(k), u).1 == Value(if alive then Some(r.value.value) else None)
            && Step(s, Exists(k), u).1 == Flag(alive || k in s.others)
            && (forall d :: Step(s, Expire(k, d), u).1 == Flag(alive))
            && Step(s, Ttl(k), u).1 ==
               Seconds(if !alive then -2 else if r.value.until.None? then -1 else (r.value.until.value - u) / 1000000000)
  {
    hide Glob.Literal, Dead;
  }

  lemma HeldNames(s: State, k: Bytes, r: Option<Record>, u: nat, p: Bytes)
    requires Holds(s, k, r, u)
    ensures Step(s, Keys(p), u).1.Names? && (k in Step(s, Keys(p), u).1.keys <==> Readable(r, u) && Glob.Literal(p, k))
  {
    hide Glob.Literal, Dead;
  }

  /**
   Over any run on a cache that does not hold the key, what every operation on the key answers
   at a later time follows from the SETs, EXPIREs and DELs of the key and their times alone.
   */
  lemma HistoryAnswers(s: State, run: seq<Event>, start: nat, k: Bytes, u: nat)
    requires k !in s.strings && Clocked(run, start) && start <= u && (run != [] ==> run[|run| - 1].now <= u)
    ensures var n, r := Run(s, run), History(None, run, k);
            var alive := Readable(r, u);
            && Step(n, Get(k), u).1 == Value(if alive then Some(r.value.value) else None)
            && Step(n, Exists(k), u).1 == Flag(alive || k in n.others)
            && (forall d :: Step(n, Expire(k, d), u).1 == Flag(alive))
            && (forall p :: Step(n, Keys(p), u).1.Names? && (k in Step(n, Keys(p), u).1.keys <==> alive && Glob.Literal(p, k)))
            && Step(n, Ttl(k), u).1 ==
               Seconds(if !alive then -2 else if r.value.until.None? then -1 else (r.value.until.value - u) / 1000000000)
  {
    hide Step, Run, History, Clocked;
    RunHolds(s, run, start, k, None, u);
    var n, r := Run(s, run), History(None, run, k);
    HeldAnswers(n, k, r, u);
    forall p ensures Step(n, Keys(p), u).1.Names? && (k in Step(n, Keys(p), u).1.keys <==> Readable(r, u) && Glob.Literal(p, k)) {
      HeldNames(n, k, r, u, p);
    }
  }

  /** Operations that write, delete or expire a key. */
  predicate Touches(op: Op, k: Bytes) {
    match op
    case Set(key, _, _) => key == k
    case Expire(key, _) => key == k
    case Del(key) => key == k
    case _ => false
  }

  lemma {:induction false} HistoryKept(r: Option<Record>, run: seq<Event>, k: Bytes)
    requires forall e | e in run :: !Touches(e.op, k)
    ensures History(r, run, k) == r
    decreases |run|
  {
    if run != [] {
      assert run[0] in run && forall e | e in run[1..] :: e in run;
      HistoryKept(r, run[1..], k);
    }
  }

  lemma {:induction false} OthersKept(s: State, run: seq<Event>, k: Bytes)
    requires forall e | e in run :: !Touches(e.op, k)
    ensures k in Run(s, run).others <==> k in s.others
    decreases |run|
  {
    hide Glob.Literal, Dead, Live;
    if run != [] {
      assert run[0] in run && forall e | e in run[1..] :: e in run;
      OthersKept(Step(s, run[0].op, run[0].now).0, run[1..], k);
    }
  }

  lemma AfterSet(s: State, k: Bytes, v: Bytes, ttl: Option<nat>, t: nat, run: seq<Event>, u: nat) returns (n: State)
    requires Clocked(run, t) && t <= u && (run != [] ==> run[|run| - 1].now <= u)
    requires forall e | e in run :: !Touches(e.op, k)
    ensures n == Run(s, [At(Set(k, v, ttl), t)] + run)
    ensures Holds(n, k, Some(Record(v, if ttl.None? then None else Some(t + ttl.value))), u)
    ensures k in n.others <==> k in s.others
  {
    var r := Some(Record(v, if ttl.None? then None else Some(t + ttl.value)));
    var first := Step(s, Set(k, v, ttl), t).0;
    assert ([At(Set(k, v, ttl), t)] + run)[1..] == run;
    assert Holds(first, k, r, t);
    n := Run(first, run);
    RunHolds(first, run, t, k, r, u);
    HistoryKept(r, run, k);
    OthersKept(first, run, k);
  }

  /**
   In any cache, a value written with a lifetime d at time t is there for GET, EXISTS, KEYS and
   EXPIRE at a time u if and only if u < t + d, and always without a lifetime, whatever was
   done in between that did not write, delete or expire the key. TTL is the whole seconds left.
   */
  lemma SetLifetime(s: State, k: Bytes, v: Bytes, ttl: Option<nat>, t: nat, run: seq<Event>, u: nat)
    requires Clocked(run, t) && t <= u && (run != [] ==> run[|run| - 1].now <= u)
    requires forall e | e in run :: !Touches(e.op, k)
    ensures var n := Run(s, [At(Set(k, v, ttl), t)] + run);
            var alive := ttl.None? || u < t + ttl.value;
            && Step(n, Get(k), u).1 == Value(if alive then Some(v) else None)
            && Step(n, Exists(k), u).1 == Flag(alive || k in s.others)
            && (forall p :: Step(n, Keys(p), u).1.Names? && (k in Step(n, Keys(p), u).1.keys <==> alive && Glob.Literal(p, k)))
            && (forall d :: Step(n, Expire(k, d), u).1 == Flag(alive))
            && Step(n, Ttl(k), u).1 == Seconds(if !alive then -2 else if ttl.None? then -1 else (t + ttl.value - u) / 1000000000)
  {
    hide Step, Run, Clocked, Holds;
    var n := AfterSet(s, k, v, ttl, t, run, u);
    var r := Some(Record(v, if ttl.None? then None else Some(t + ttl.value)));
    HeldAnswers(n, k, r, u);
    forall p ensures Step(n, Keys(p), u).1.Names? && (k in Step(n, Keys(p), u).1.keys <==> Readable(r, u) && Glob.Literal(p, k)) {
      HeldNames(n, k, r, u, p);
    }
  }

  /** EXPIRE at time u gives a value that is still there until u + d, and brings nothing back that is gone. */
  lemma ExpireLifetime(s: State, k: Bytes, v: Bytes, ttl: Option<nat>, t: nat, run: seq<Event>, u: nat, d: nat, w: nat)
    requires Clocked(run, t) && t <= u <= w && (run != [] ==> run[|run| - 1].now <= u)
    requires forall e | e in run :: !Touches(e.op, k)
    ensures var n := Step(Run(s, [At(Set(k, v, ttl), t)] + run), Expire(k, d), u).0;
            var alive := (ttl.None? || u < t + ttl.value) && w < u + d;
            && Step(n, Get(k), w).1 == Value(if alive then Some(v) else None)
            && Step(n, Ttl(k), w).1 == Seconds(if alive then (u + d - w) / 1000000000 else -2)
  {
    hide Step, Run, Clocked;
    var m := AfterSet(s, k, v, ttl, t, run, u);
    var r := Some(Record(v, if ttl.None? then None else Some(t + ttl.value)));
    var n := Step(m, Expire(k, d), u).0;
    StepHolds(m, Expire(k, d), u, k, r, u);
    var later := Written(r, Expire(k, d), u, k);
    assert Holds(n, k, later, w);
    HeldAnswers(n, k, later, w);
  }

  /** The sweeper removes and counts the entries whose deadline has been reached, and no others. */
  lemma SweepRemoves(s: State, now: nat)
    ensures var gone := set k | k in s.strings && s.strings[k].deadline.Some? && s.strings[k].deadline.value <= now;
            Step(s, Sweep, now) == (s.(strings := s.strings - gone, expired := s.expired + |gone|), Count(|gone|))
  {
    var gone := set k | k in s.strings && s.strings[k].deadline.Some? && s.strings[k].deadline.value <= now;
    assert Dead(s.strings, now) == gone;
    assert Live(s.strings, now) == s.strings - gone;
  }

  // ----- counters -----

  function Found(answers: seq<Answer>): nat {
    if answers == [] then 0 else (if answers[0].Value? && answers[0].found.Some? then 1 else 0) + Found(answers[1..])
  }

  function NotFound(answers: seq<Answer>): nat {
    if answers == [] then 0 else (if answers[0].Value? && answers[0].found.None? then 1 else 0) + NotFound(answers[1..])
  }

  lemma CountHead(answer: Answer, rest: seq<Answer>)
    ensures Found([answer] + rest) == Found([answer]) + Found(rest)
    ensures NotFound([answer] + rest) == NotFound([answer]) + NotFound(rest)
  {
    assert ([answer] + rest)[1..] == rest && [answer][1..] == [];
  }

  lemma StepCounters(s: State, op: Op, now: nat)
    ensures var (t, answer) := Step(s, op, now);
            && t.hits == s.hits + (if answer.Value? && answer.found.Some? then 1 else 0)
            && t.misses == s.misses + (if answer.Value? && answer.found.None? then 1 else 0)
            && (op.Sweep? ==> !answer.Value?)
  {
    hide Glob.Literal, Dead, Live;
  }

  /** Over every run, hits are the GETs answered with a value and misses the GETs answered without. */
  lemma {:induction false} HitsAreFound(s: State, run: seq<Event>)
    ensures Run(s, run).hits == s.hits + Found(Answers(s, run))
    ensures Run(s, run).misses == s.misses + NotFound(Answers(s, run))
    decreases |run|
  {
    hide Step;
    if run != [] {
      var e, rest := run[0], run[1..];
      var (t, answer) := Step(s, e.op, e.now);
      StepCounters(s, e.op, e.now);
      HitsAreFound(t, rest);
      CountHead(answer, Answers(t, rest));
      assert [] + Answers(t, rest) == Answers(t, rest) && [answer][1..] == [];
    }
  }
}
