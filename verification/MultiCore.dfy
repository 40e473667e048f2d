/** Commands on secondary cores (do_runmulticore and secondary_core_entry in
    arch/arm/mach-ipq/cmd_ipq.c), for any number of cores and any interleaving. */
module MultiCore {
  import opened Common

  /** Where a secondary core is. */
  datatype Pc = Down | Booting | Running | Stored | Raised | Off

  /** A core and its entry in the shared array. */
  datatype Core = Core(pc: Pc, up: bool, result: int, complete: bool)

  /** The next thing that a core does on its own: come up, store the result of its
      command, raise the flag, power down. */
  function Step(c: Core, answer: int): Core {
    match c.pc
    case Booting => c.(pc := Running, up := true)
    case Running => c.(pc := Stored, result := answer)
    case Stored => c.(pc := Raised, complete := true)
    case Raised => c.(pc := Off)
    case _ => c
  }

  ghost predicate Coherent(c: Core, answer: int) {
    && (c.pc.Down? || c.pc.Booting? ==> !c.up)
    && (c.pc.Running? || c.pc.Stored? || c.pc.Raised? || c.pc.Off? ==> c.up)
    && (c.pc.Stored? || c.pc.Raised? || c.pc.Off? ==> c.result == answer)
    && (c.complete <==> c.pc.Raised? || c.pc.Off?)
  }

  /** What stays true of a core while it runs on. */
  ghost predicate Later(c: Core, d: Core) {
    && (c.up ==> d.up) && (c.complete ==> d.complete && d.result == c.result)
    && (c.pc.Off? ==> d.pc.Off?) && (c.pc.Down? <==> d.pc.Down?)
  }

  function Steps(c: Core, answer: int, n: nat): Core {
    if n == 0 then c else Step(Steps(c, answer, n - 1), answer)
  }

  /** However far a core runs on: its flag means that its result is there for good. */
  lemma {:induction false} StepsRunOn(c: Core, answer: int, n: nat)
    requires Coherent(c, answer)
    ensures Coherent(Steps(c, answer, n), answer) && Later(c, Steps(c, answer, n))
  {
    if n > 0 {
      StepsRunOn(c, answer, n - 1);
    }
  }

  /** What the primary core reports for a result. */
  datatype Verdict = Pass | Fail

  function Judge(result: int): Verdict {
    if result == -1 then Fail else Pass
  }

  datatype Outcome = Done | Panic | Waiting

  /** Why a command did not complete: starting a core failed; a core did not come up
      while the primary core waited; what was seen of the cores in each round of polls
      while some flag was not raised, or some core not off. */
  datatype Cause =
    | NoCause
    | NotStarted(core: nat)
    | NotUp(core: nat)
    | Busy(film: seq<seq<Core>>)
    | NotOff(film: seq<seq<Core>>)

  function Indices(n: nat): (s: set<nat>)
    ensures forall i: nat :: i in s <==> i < n
  {
    if n == 0 then {} else Indices(n - 1) + {n - 1}
  }

  // ----- rounds of polls -----

  /** The cores as they were seen one after the other in a round, after they were `was`. */
  ghost predicate SeenAfter(was: seq<Core>, seen: seq<Core>, answers: seq<int>) {
    && |was| == |seen| == |answers|
    && forall i :: 0 <= i < |seen| ==> Later(was[i], seen[i]) && Coherent(seen[i], answers[i])
  }

  /** The rounds of `film` lie one after the other between two states of the cores. */
  ghost predicate Filmed(was: seq<Core>, film: seq<seq<Core>>, now: seq<Core>, answers: seq<int>) {
    if film == [] then SeenAfter(was, now, answers)
    else
      var n := |film| - 1;
      SeenAfter(film[n], now, answers) && Filmed(was, film[..n], film[n], answers)
  }

  lemma FilmNext(was: seq<Core>, film: seq<seq<Core>>, now: seq<Core>, answers: seq<int>, seen: seq<Core>,
                 now': seq<Core>)
    requires Filmed(was, film, now, answers)
    requires SeenAfter(now, seen, answers) && SeenAfter(seen, now', answers)
    ensures Filmed(was, film + [seen], now', answers)
  {
    assert (film + [seen])[..|film|] == film;
    SeenTrans(if film == [] then was else film[|film| - 1], now, seen, answers);
  }

  lemma SeenTrans(a: seq<Core>, b: seq<Core>, c: seq<Core>, answers: seq<int>)
    requires SeenAfter(a, b, answers) && SeenAfter(b, c, answers)
    ensures SeenAfter(a, c, answers)
  {}

  /** What is left of `on` when the cores seen off in `rounds` rounds are taken out. */
  function Left(on: set<nat>, film: seq<seq<Core>>, rounds: nat): (left: set<nat>)
    requires rounds <= |film|
    ensures left <= on
  {
    if rounds == 0 then on else StillOn(Left(on, film, rounds - 1), film[rounds - 1])
  }

  function StillOn(on: set<nat>, seen: seq<Core>): set<nat> {
    set i | i in on && !(i < |seen| && seen[i].pc.Off?)
  }

  lemma {:induction false} LeftPrefix(on: set<nat>, film: seq<seq<Core>>, seen: seq<Core>, rounds: nat)
    requires rounds <= |film|
    ensures Left(on, film + [seen], rounds) == Left(on, film, rounds)
  {
    if rounds > 0 {
      LeftPrefix(on, film, seen, rounds - 1);
    }
  }

  /** The wait ends well: some round among the first five leaves no core. */
  predicate OffInTime(on: set<nat>, film: seq<seq<Core>>) {
    Left(on, film, Min(5, |film|)) == {}
  }

  /** A core that raises its flag, and is off when it is polled for the sixth time: all
      cores are off by then, but not in time. */
  lemma SixthRoundIsLate(answer: int) returns (was: seq<Core>, film: seq<seq<Core>>, now: seq<Core>)
    ensures Filmed(was, film, now, [answer]) && |film| == 6
    ensures film[5][0].pc.Off? && Left(Indices(1), film, 6) == {} && !OffInTime(Indices(1), film)
  {
    var on, off := Core(Raised, true, answer, true), Core(Off, true, answer, true);
    was, now, film := [on], [off], [];
    FilmNext(was, film, [on], [answer], [on], [on]);
    FilmNext(was, film + [[on]], [on], [answer], [on], [on]);
    FilmNext(was, film + [[on]] + [[on]], [on], [answer], [on], [on]);
    FilmNext(was, film + [[on]] + [[on]] + [[on]], [on], [answer], [on], [on]);
    FilmNext(was, film + [[on]] + [[on]] + [[on]] + [[on]], [on], [answer], [on], [on]);
    var five: seq<seq<Core>> := [[on], [on], [on], [on], [on]];
    assert film + [[on]] + [[on]] + [[on]] + [[on]] + [[on]] == five;
    FilmNext(was, five, [on], [answer], [off], [off]);
    film := five + [[off]];
    assert 0 in Indices(1);
    assert 0 in Left(Indices(1), film, 1);
    assert 0 in Left(Indices(1), film, 2);
    assert 0 in Left(Indices(1), film, 3);
    assert 0 in Left(Indices(1), film, 4);
    assert 0 in Left(Indices(1), film, 5);
    assert Left(Indices(1), film, 6) == {};
  }

  /** The cores whose flag was seen up in the last round. */
  ghost predicate FlagsSeen(seen: map<nat, Verdict>, film: seq<seq<Core>>, n: nat) {
    if film == [] then seen == map[]
    else
      var last := film[|film| - 1];
      |last| == n && forall i: nat :: i in seen <==> i < n && last[i].complete
  }

  class Machine {
    const answers: seq<int>       // what each core's command returns
    var cores: seq<Core>
    var stacks: seq<bool>         // allocated
    var clock: nat                // the seconds that the primary core has waited

    /** Started cores have a stack until they are off; each core was started only when
        the one before it was up. */
    ghost predicate Valid()
      reads this
    {
      && |cores| == |answers| == |stacks|
      && (forall i :: 0 <= i < |cores| ==> Coherent(cores[i], answers[i]))
      && (forall i :: 0 <= i < |cores| && !cores[i].pc.Down? && !cores[i].pc.Off? ==> stacks[i])
      && (forall i :: 0 < i < |cores| && !cores[i].pc.Down? ==> cores[i - 1].up)
    }

    twostate predicate RunOn()
      reads this
    {
      && |cores| == |old(cores)| && stacks == old(stacks)
      && forall i :: 0 <= i < |cores| ==> Later(old(cores)[i], cores[i])
    }

    constructor (answers: seq<int>)
      ensures Valid() && this.answers == answers
      ensures forall i :: 0 <= i < |cores| ==> cores[i].pc.Down? && stacks[i]
    {
      this.answers := answers;
      cores := seq(|answers|, _ => Core(Down, false, -1, false));
      stacks := seq(|answers|, _ => true);
      clock := 0;
    }

    /** Between two actions of the primary core the others take any number of steps. */
    method Others()
      requires Valid()
      modifies this`cores
      ensures Valid() && RunOn()
    {
      var steps: nat := *;
      while steps > 0
        invariant Valid() && RunOn()
      {
        var i: int := *;
        if 0 <= i < |cores| {
          cores := cores[i := Step(cores[i], answers[i])];
        }
        steps := steps - 1;
      }
    }

    /** mdelay(1000): meanwhile the other cores run on. */
    method Wait()
      requires Valid()
      modifies this`cores, this`clock
      ensures Valid() && RunOn() && clock == old(clock) + 1
    {
      Others();
      clock := clock + 1;
    }

    /** Starts core `i` and waits up to five seconds for it to come up. */
    method BringUp(i: nat, scmFails: bool) returns (ok: bool)
      requires Valid() && i < |cores| && cores[i].pc.Down? && stacks[i]
      requires forall j :: 0 <= j < i ==> cores[j].up
      requires forall j :: i < j < |cores| ==> cores[j].pc.Down?
      modifies this`cores, this`clock
      ensures Valid() && |cores| == |old(cores)| && old(clock) <= clock <= old(clock) + 5
      ensures ok <==> !scmFails && cores[i].up
      ensures ok ==> (forall j :: 0 <= j <= i ==> cores[j].up)
      ensures !ok && !scmFails ==> clock == old(clock) + 5 && cores[i].pc.Booting?
      ensures scmFails ==> clock == old(clock)
      ensures forall j :: i < j < |cores| ==> cores[j].pc.Down?
    {
      ok := false;
      if !scmFails {
        cores := cores[i := cores[i].(pc := Booting)];
        var delay := 0;
        Others();
        while delay < 5 && !cores[i].up
          invariant 0 <= delay <= 5 && clock == old(clock) + delay
          invariant Valid() && |cores| == |old(cores)| && !cores[i].pc.Down?
          invariant forall j :: 0 <= j < i ==> cores[j].up
          invariant forall j :: i < j < |cores| ==> cores[j].pc.Down?
        {
          Wait();
          delay := delay + 1;
        }
        Others();
        ok := cores[i].up;
      }
    }

    ghost predicate AllUp()
      reads this
    {
      forall i :: 0 <= i < |cores| ==> cores[i].up
    }

    ghost predicate AllOff()
      reads this
    {
      forall i :: 0 <= i < |cores| ==> cores[i].pc.Off?
    }

    /** The first loop of polls: the verdict of each core is taken when its flag is seen.
        It ends when every flag has been seen, or when patience is exhausted. */
    method Collect(coreStatus: set<nat>, patience: nat)
      returns (done: bool, seen: map<nat, Verdict>, ghost film: seq<seq<Core>>)
      requires Valid() && AllUp() && coreStatus == Indices(|cores|)
      modifies this`cores
      ensures Valid() && AllUp() && |cores| == |old(cores)|
      ensures forall i :: i in seen ==> i < |cores| && cores[i].complete && seen[i] == Judge(answers[i])
      ensures done <==> forall i :: 0 <= i < |cores| ==> i in seen
      ensures Filmed(old(cores), film, cores, answers) && FlagsSeen(seen, film, |cores|)
      ensures !done ==> |film| == patience
    {
      seen := map[];
      var status, left := coreStatus, patience;
      film := [];
      while status != {} && left > 0
        invariant Valid() && AllUp() && |cores| == |old(cores)| && |film| == patience - left
        invariant forall i :: i in seen ==> i < |cores| && cores[i].complete && seen[i] == Judge(answers[i])
        invariant forall i: nat :: i in status <==> i < |cores| && i !in seen
        invariant Filmed(old(cores), film, cores, answers) && FlagsSeen(seen, film, |cores|)
        decreases left
      {
        ghost var was := cores;
        ghost var shot;
        seen, status, shot := CollectRound(seen, status);
        FilmNext(old(cores), film, was, answers, shot, cores);
        film := film + [shot];
        left := left - 1;
      }
      done := status == {};
    }

    /** The poll of core `i`, which is then `c`; if its flag is waited for and up, its
        result is read. */
    method PollFlag(i: nat, wanted: bool) returns (flag: bool, verdict: Verdict, ghost c: Core)
      requires Valid() && AllUp() && i < |cores|
      modifies this`cores
      ensures Valid() && AllUp() && RunOn()
      ensures Later(old(cores)[i], c) && Later(c, cores[i]) && Coherent(c, answers[i])
      ensures flag <==> wanted && c.complete
      ensures flag ==> verdict == Judge(answers[i])
    {
      Others();
      c := cores[i];
      flag, verdict := wanted && cores[i].complete, Fail;
      if flag {
        Others();
        verdict := Judge(cores[i].result);
      }
    }

    /** One round of the first loop of polls. */
    method CollectRound(seen: map<nat, Verdict>, status: set<nat>)
      returns (seen': map<nat, Verdict>, status': set<nat>, ghost shot: seq<Core>)
      requires Valid() && AllUp()
      requires forall i :: i in seen ==> i < |cores| && cores[i].complete && seen[i] == Judge(answers[i])
      requires forall i: nat :: i in status <==> i < |cores| && i !in seen
      modifies this`cores
      ensures Valid() && AllUp() && |cores| == |old(cores)|
      ensures forall i :: i in seen' ==> i < |cores| && cores[i].complete && seen'[i] == Judge(answers[i])
      ensures forall i: nat :: i in status' <==> i < |cores| && i !in seen'
      ensures SeenAfter(old(cores), shot, answers) && SeenAfter(shot, cores, answers)
      ensures forall i: nat :: i in seen' <==> i < |cores| && shot[i].complete
    {
      seen', status' := seen, status;
      shot := [];
      var i := 0;
      while i < |cores|
        invariant 0 <= i <= |cores| == |old(cores)| && Valid() && AllUp() && |shot| == i
        invariant forall j :: 0 <= j < |cores| ==> Later(old(cores)[j], cores[j])
        invariant forall j :: j in seen' ==> j < |cores| && cores[j].complete && seen'[j] == Judge(answers[j])
        invariant forall j: nat :: j in status' <==> j < |cores| && j !in seen'
        invariant forall j :: 0 <= j < i ==>
          Later(old(cores)[j], shot[j]) && Later(shot[j], cores[j]) && Coherent(shot[j], answers[j])
        invariant forall j :: i <= j < |cores| ==> (j in seen' <==> j in seen)
        invariant forall j :: 0 <= j < i ==> (j in seen' <==> shot[j].complete)
      {
        ghost var c;
        var flag, verdict;
        flag, verdict, c := PollFlag(i, i in status');
        shot := shot + [c];
        if flag {
          seen' := seen'[i := verdict];
          status' := status' - {i};
        }
        i := i + 1;
      }
    }

    /** One round of the second loop of polls; each core is `shot` when its turn comes. */
    method ScanOff(on: set<nat>) returns (rest: set<nat>, ghost shot: seq<Core>)
      requires Valid() && AllUp()
      modifies this`cores
      ensures Valid() && AllUp() && |cores| == |old(cores)|
      ensures SeenAfter(old(cores), shot, answers) && SeenAfter(shot, cores, answers)
      ensures rest == StillOn(on, shot)
    {
      rest, shot := on, [];
      var i := 0;
      while i < |cores|
        invariant 0 <= i <= |cores| == |old(cores)| && Valid() && AllUp() && |shot| == i
        invariant forall j :: 0 <= j < |cores| ==> Later(old(cores)[j], cores[j])
        invariant forall j :: 0 <= j < i ==>
          Later(old(cores)[j], shot[j]) && Later(shot[j], cores[j]) && Coherent(shot[j], answers[j])
        invariant rest == StillOn(on, shot)
      {
        Others();
        shot := shot + [cores[i]];
        if i in rest && cores[i].pc.Off? {
          rest := rest - {i};
        }
        i := i + 1;
      }
    }

    /** The second loop of polls. `film` has what was seen of every core in each round.
        The wait ends with the first round that leaves no core, or panics in the sixth:
        it ends well exactly if one of the first five rounds leaves no core. Every round
        takes a second. */
    method PowerDown(coreOnStatus: set<nat>) returns (ok: bool, ghost film: seq<seq<Core>>)
      requires Valid() && AllUp() && coreOnStatus == Indices(|cores|)
      modifies this`cores, this`clock
      ensures Valid() && AllUp() && |cores| == |old(cores)| && clock == old(clock) + |film|
      ensures ok ==> AllOff()
      ensures Filmed(old(cores), film, cores, answers)
      ensures ok <==> OffInTime(coreOnStatus, film)
      ensures |film| <= 6 && (!ok <==> |film| == 6)
      ensures forall r :: 0 <= r < Min(5, |film|) ==> Left(coreOnStatus, film, r) != {}
    {
      var on, delay := coreOnStatus, 0;
      film := [];
      ok := true;
      while on != {} && ok
        invariant 0 <= delay <= 6 && |film| == delay && (ok <==> delay <= 5) && clock == old(clock) + delay
        invariant on == Left(coreOnStatus, film, delay)
        invariant Valid() && AllUp() && |cores| == |old(cores)| && Filmed(old(cores), film, cores, answers)
        invariant forall i: nat :: i < |cores| ==> i in on || cores[i].pc.Off?
        invariant forall r :: 0 <= r < delay ==> Left(coreOnStatus, film, r) != {}
        decreases 6 - delay
      {
        ghost var was, film0 := cores, film;
        ghost var shot;
        on, shot := ScanOff(on);
        ghost var mid := cores;
        Wait();
        SeenTrans(shot, mid, cores, answers);
        FilmNext(old(cores), film, was, answers, shot, cores);
        film := film + [shot];
        forall r | 0 <= r <= delay ensures Left(coreOnStatus, film, r) == Left(coreOnStatus, film0, r) {
          LeftPrefix(coreOnStatus, film0, shot, r);
        }
        delay := delay + 1;
        ok := delay <= 5;
      }
    }

    /** Frees every stack. */
    method FreeAll()
      requires Valid() && AllOff()
      modifies this`stacks
      ensures Valid() && AllOff() && forall i :: 0 <= i < |stacks| ==> !stacks[i]
    {
      var i := 0;
      while i < |cores|
        invariant 0 <= i <= |cores| && Valid() && AllOff()
        invariant forall j :: 0 <= j < i ==> !stacks[j]
      {
        stacks := stacks[i := false];
        i := i + 1;
      }
    }

    ghost predicate NoneFreed()
      reads this
    {
      forall i :: 0 <= i < |stacks| ==> stacks[i]
    }

    /** The whole command. Only when it completes is any stack freed; then every core is
        off, and what it reports, while waiting and at the end, is what the cores'
        commands returned. It panics only if a core could not be started, was not up
        after five seconds of waiting, or was not seen off in five rounds, a second each. */
    method Run(scmFails: seq<bool>, patience: nat)
      returns (outcome: Outcome, seen: map<nat, Verdict>, status: seq<Verdict>, ghost why: Cause)
      requires Valid() && |scmFails| == |cores| && NoneFreed()
      requires forall i :: 0 <= i < |cores| ==> cores[i].pc.Down?
      modifies this
      ensures Valid() && |cores| == |old(cores)|
      ensures forall i :: i in seen ==> i < |answers| && seen[i] == Judge(answers[i])
      ensures outcome == Done ==>
        && AllOff() && (forall i :: 0 <= i < |stacks| ==> !stacks[i])
        && |status| == |answers| && (forall i :: 0 <= i < |answers| ==> i in seen && status[i] == Judge(answers[i]))
      ensures forall i :: i in seen ==> (seen[i].Fail? <==> answers[i] == -1)
      ensures outcome == Done ==> forall i :: 0 <= i < |status| ==> (status[i].Fail? <==> answers[i] == -1)
      ensures outcome != Done ==> NoneFreed()
      ensures outcome == Panic ==> Panics(scmFails, why, old(clock))
      ensures outcome == Done ==> clock <= old(clock) + 5 * |cores| + 5
      ensures outcome == Waiting ==> Waits(patience, seen, why)
    {
      seen, status, why := map[], [], NoCause;
      var coreStatus: set<nat>, coreOnStatus: set<nat> := {}, {};
      var i := 0;
      while i < |cores|
        invariant 0 <= i <= |cores| == |scmFails| == |old(cores)| && Valid() && NoneFreed()
        invariant coreStatus == coreOnStatus == Indices(i) && forall j: nat :: j < i ==> cores[j].up
        invariant forall j :: i <= j < |cores| ==> cores[j].pc.Down?
        invariant old(clock) <= clock <= old(clock) + 5 * i
      {
        var ok := BringUp(i, scmFails[i]);
        if !ok {
          why := if scmFails[i] then NotStarted(i) else NotUp(i);
          return Panic, seen, status, why;
        }
        coreStatus, coreOnStatus := coreStatus + {i}, coreOnStatus + {i};
        i := i + 1;
      }
      outcome, seen, status, why := AwaitAll(coreStatus, coreOnStatus, patience);
    }

    /** The command, begun at `since`, has not completed because of `why`. */
    ghost predicate Panics(scmFails: seq<bool>, why: Cause, since: nat)
      reads this
    {
      match why
      case NotStarted(i) => i < |scmFails| && scmFails[i]
      case NotUp(i) => i < |cores| && cores[i].pc.Booting? && clock >= since + 5
      case NotOff(film) => NotSeenOff(film) && clock >= since + 6
      case _ => false
    }

    /** Six rounds, and some core was not seen off in the first five. */
    ghost predicate NotSeenOff(film: seq<seq<Core>>)
      reads this
    {
      && |film| == 6 && !OffInTime(Indices(|cores|), film)
      && exists was :: Filmed(was, film, cores, answers)
    }

    /** As many rounds as there is patience, and in the last some flag was not up. */
    ghost predicate Waits(patience: nat, seen: map<nat, Verdict>, why: Cause)
      reads this
    {
      && why.Busy? && |why.film| == patience && FlagsSeen(seen, why.film, |cores|)
      && (exists was :: Filmed(was, why.film, cores, answers))
      && exists i: nat :: i < |cores| && i !in seen
    }

    /** The command from the first loop of polls on. */
    method AwaitAll(coreStatus: set<nat>, coreOnStatus: set<nat>, patience: nat)
      returns (outcome: Outcome, seen: map<nat, Verdict>, status: seq<Verdict>, ghost why: Cause)
      requires Valid() && AllUp() && NoneFreed() && coreStatus == coreOnStatus == Indices(|cores|)
      modifies this
      ensures Valid() && |cores| == |old(cores)|
      ensures forall i :: i in seen ==> i < |answers| && seen[i] == Judge(answers[i])
      ensures outcome == Done ==>
        && AllOff() && (forall i :: 0 <= i < |stacks| ==> !stacks[i])
        && |status| == |answers| && (forall i :: 0 <= i < |answers| ==> i in seen && status[i] == Judge(answers[i]))
      ensures outcome != Done ==> NoneFreed()
      ensures outcome == Panic ==> why.NotOff? && NotSeenOff(why.film) && clock == old(clock) + 6
      ensures outcome == Done ==> clock <= old(clock) + 5
      ensures outcome == Waiting ==> Waits(patience, seen, why)
    {
      status, why := [], NoCause;
      var done;
      ghost var film;
      done, seen, film := Collect(coreStatus, patience);
      if !done {
        return Waiting, seen, status, Busy(film);
      }
      done, film := PowerDown(coreOnStatus);
      if !done {
        return Panic, seen, status, NotOff(film);
      }
      FreeAll();
      var i := 0;
      while i < |cores|
        invariant 0 <= i <= |cores| && |status| == i
        invariant forall j :: 0 <= j < i ==> status[j] == Judge(answers[j])
      {
        status := status + [Judge(cores[i].result)];
        i := i + 1;
      }
      outcome := Done;
    }
  }
}
