// The daemon's USB watcher: looks for an accessory, asks a phone to become one,
// waits for it to re-enumerate, and keeps attempts apart by cooldowns.
module AoaWatcher {
  // Where the loop's state variable is between two turns.
  datatype Usb = Idle | WaitingForAccessory(waitedMs: nat) | Connected

  // A successful scan_and_switch_any: when it was, and whether the wait that
  // followed has timed out.
  datatype Switch = Switch(at: nat, timedOut: bool)

  // time counts the loop's own sleeps and whatever its calls take.
  datatype Watcher = Watcher(usb: Usb, cooldownMs: nat, time: nat, switches: seq<Switch>)

  // What one turn of the loop meets: the session flag, the results of the two USB
  // calls, and the time they take.
  datatype Turn = Turn(sessionActive: bool, found: bool, switched: bool, took: nat)

  const START := Watcher(Idle, 0, 0, [])

  function Max0(x: int): nat {
    if x < 0 then 0 else x
  }

  function TimedOut(switches: seq<Switch>): seq<Switch> {
    if switches == [] then [] else
      var n := |switches| - 1;
      switches[n := switches[n].(timedOut := true)]
  }

  function Step(w: Watcher, t: Turn): Watcher {
    match w.usb
    case Idle =>
      if t.sessionActive then w.(time := w.time + 500)
      else if w.cooldownMs > 0 then w.(cooldownMs := Max0(w.cooldownMs - 500), time := w.time + 500)
      else if t.found then w.(usb := Connected, time := w.time + t.took)
      else if t.switched then
        var now := w.time + t.took;
        w.(usb := WaitingForAccessory(0), time := now, switches := w.switches + [Switch(now, false)])
      else w.(time := w.time + t.took + 1500)
    case WaitingForAccessory(waitedMs) =>
      var waited := waitedMs + 500;
      var now := w.time + 500 + t.took;
      if t.found then w.(usb := Connected, time := now)
      else if waited > 8000 then
        w.(usb := Idle, cooldownMs := 5000, time := now, switches := TimedOut(w.switches))
      else w.(usb := WaitingForAccessory(waited), time := now)
    case Connected =>
      if t.sessionActive then w.(time := w.time + 500)
      else w.(usb := Idle, cooldownMs := 2000, time := w.time + 500)
  }

  function Run(w: Watcher, turns: seq<Turn>): Watcher
    decreases |turns|
  {
    if turns == [] then w else Run(Step(w, turns[0]), turns[1..])
  }

  // ----- spacing -----

  // How long the next switch after s must stay away.
  function Spacing(s: Switch): nat {
    if s.timedOut then 13500 else 3000
  }

  // The switches so far are apart, and the last one is far enough in the past for
  // the state the loop is in.
  ghost predicate Inv(w: Watcher) {
    && (forall i | 0 <= i < |w.switches| - 1 :: w.switches[i + 1].at - w.switches[i].at >= Spacing(w.switches[i]))
    && (w.usb.WaitingForAccessory? ==> w.usb.waitedMs % 500 == 0 && w.usb.waitedMs <= 8000 && w.switches != [])
    && (w.switches != [] ==>
          var last := w.switches[|w.switches| - 1];
          match w.usb
          case Idle => w.time - last.at + w.cooldownMs >= Spacing(last)
          case WaitingForAccessory(waited) => w.time - last.at >= waited && !last.timedOut
          case Connected => w.time - last.at >= (if last.timedOut then 13500 else 500))
  }

  lemma IdleKeepsInv(w: Watcher, t: Turn)
    requires Inv(w) && w.usb.Idle?
    ensures Inv(Step(w, t))
  {
  }

  lemma WaitingKeepsInv(w: Watcher, t: Turn)
    requires Inv(w) && w.usb.WaitingForAccessory?
    ensures Inv(Step(w, t))
  {
  }

  lemma StepKeepsInv(w: Watcher, t: Turn)
    requires Inv(w)
    ensures Inv(Step(w, t))
  {
    match w.usb
    case Idle => IdleKeepsInv(w, t);
    case WaitingForAccessory(_) => WaitingKeepsInv(w, t);
    case Connected =>
  }

  lemma {:induction false} RunKeepsInv(w: Watcher, turns: seq<Turn>)
    requires Inv(w)
    ensures Inv(Run(w, turns))
    decreases |turns|
  {
    if turns != [] {
      StepKeepsInv(w, turns[0]);
      RunKeepsInv(Step(w, turns[0]), turns[1..]);
    }
  }

  lemma {:induction false} ApartAddsUp(switches: seq<Switch>, i: nat, j: nat)
    requires forall k | 0 <= k < |switches| - 1 :: switches[k + 1].at - switches[k].at >= Spacing(switches[k])
    requires i < j < |switches|
    ensures switches[j].at - switches[i].at >= Spacing(switches[i])
    decreases j - i
  {
    if i + 1 < j {
      ApartAddsUp(switches, i + 1, j);
    }
  }

  // Over every run, two switches are at least 3 s apart, 13.5 s when the first one
  // timed out, and the waiting counter stays within 8500 ms in mid-turn.
  lemma SwitchesAreSpaced(turns: seq<Turn>, i: nat, j: nat)
    ensures var w := Run(START, turns);
            && (w.usb.WaitingForAccessory? ==> w.usb.waitedMs + 500 <= 8500)
            && (i < j < |w.switches| ==> w.switches[j].at - w.switches[i].at >= Spacing(w.switches[i]))
  {
    RunKeepsInv(START, turns);
    var w := Run(START, turns);
    if i < j < |w.switches| {
      ApartAddsUp(w.switches, i, j);
    }
  }

  // ----- what each state does with what it meets -----

  // While a session is active, the watcher neither looks nor switches: time passes.
  lemma {:induction false} SessionIsLeftAlone(w: Watcher, turns: seq<Turn>)
    requires !w.usb.WaitingForAccessory? && forall t <- turns :: t.sessionActive
    ensures Run(w, turns) == w.(time := w.time + 500 * |turns|)
    decreases |turns|
  {
    if turns != [] {
      assert turns[0] in turns;
      SessionIsLeftAlone(Step(w, turns[0]), turns[1..]);
    }
  }

  // So it does during a cooldown, whatever the USB calls would find; after it, an
  // accessory that is there is connected without a switch.
  lemma {:induction false} CooldownIsWaitedOut(w: Watcher, n: nat, turns: seq<Turn>)
    requires w.usb.Idle? && w.cooldownMs == 500 * n && |turns| <= n
    requires forall t <- turns :: !t.sessionActive
    ensures Run(w, turns) == w.(cooldownMs := 500 * (n - |turns|), time := w.time + 500 * |turns|)
    decreases |turns|
  {
    if turns != [] {
      assert turns[0] in turns;
      CooldownIsWaitedOut(Step(w, turns[0]), n - 1, turns[1..]);
    }
  }

  // The two calls of an idle turn: an accessory that is there is connected and no phone
  // is switched; else a phone that can be is switched; else the watcher sleeps.
  lemma IdleTurn(w: Watcher, t: Turn)
    requires w.usb.Idle? && w.cooldownMs == 0 && !t.sessionActive
    ensures var u := Step(w, t);
            && u.cooldownMs == 0
            && (u.usb.Connected? <==> t.found)
            && (u.usb.WaitingForAccessory? <==> !t.found && t.switched)
            && u.switches == w.switches + (if !t.found && t.switched then [Switch(u.time, false)] else [])
            && u.time == w.time + t.took + (if !t.found && !t.switched then 1500 else 0)
  {
  }

  // The watcher starts idle and looks at once.
  lemma FirstTurn(t: Turn)
    requires !t.sessionActive
    ensures Step(START, t).usb.Connected? <==> t.found
    ensures START.time == 0 && (Step(START, t).switches != [] <==> !t.found && t.switched)
  {
  }

  // After a switch it looks once in 500 ms, session or not: the first time it finds the
  // accessory it connects, and after 17 looks in vain it cools down for 5 s.
  lemma {:induction false} WaitingEnds(w: Watcher, n: nat, turns: seq<Turn>)
    requires w.usb == WaitingForAccessory(500 * n) && n + |turns| <= 17 && w.switches != []
    requires forall t <- turns :: !t.found
    ensures var u, last := Run(w, turns), |w.switches| - 1;
            && u.time >= w.time + 500 * |turns|
            && (if n + |turns| <= 16 then
                  && u.usb == WaitingForAccessory(500 * (n + |turns|)) && u.switches == w.switches
                  && u.cooldownMs == w.cooldownMs
                  && forall t: Turn | t.found :: Step(u, t).usb.Connected? && Step(u, t).switches == w.switches
                else
                  && (turns != [] ==> u.usb.Idle? && u.cooldownMs == 5000)
                  && (turns != [] ==> u.switches == w.switches[last := Switch(w.switches[last].at, true)]))
    decreases |turns|
  {
    if turns != [] {
      assert turns[0] in turns;
      if n < 16 {
        WaitingEnds(Step(w, turns[0]), n + 1, turns[1..]);
      } else {
        assert Run(w, turns) == Run(Step(w, turns[0]), turns[1..]);
        assert turns[1..] == [];
      }
    }
  }

  // The end of a session starts a cooldown of 2 s.
  lemma SessionEnds(w: Watcher, t: Turn, quiet: seq<Turn>)
    requires w.usb.Connected? && !t.sessionActive && |quiet| == 4 && forall q <- quiet :: !q.sessionActive
    ensures Step(w, t) == w.(usb := Idle, cooldownMs := 2000, time := w.time + 500)
    ensures Run(Step(w, t), quiet) == w.(usb := Idle, cooldownMs := 0, time := w.time + 2500)
  {
    CooldownIsWaitedOut(Step(w, t), 4, quiet);
  }

  // ----- the bounds are tight -----

  const SWITCHES := Turn(false, false, true, 0)
  const FINDS := Turn(false, true, false, 0)
  const NOTHING := Turn(false, false, false, 0)

  function Repeat(t: Turn, n: nat): (ts: seq<Turn>)
    ensures |ts| == n
  {
    if n == 0 then [] else [t] + Repeat(t, n - 1)
  }

  lemma {:induction false} RunAppend(w: Watcher, a: seq<Turn>, b: seq<Turn>)
    ensures Run(w, a + b) == Run(Run(w, a), b)
    decreases |a|
  {
    if a == [] {
      assert a + b == b;
    } else {
      assert (a + b)[1..] == a[1..] + b;
      RunAppend(Step(w, a[0]), a[1..], b);
    }
  }

  lemma {:induction false} RepeatedTurns(t: Turn, n: nat)
    ensures forall u <- Repeat(t, n) :: u == t
  {
    if n > 0 {
      RepeatedTurns(t, n - 1);
    }
  }

  lemma CoolingDown(w: Watcher, n: nat)
    requires w.usb.Idle? && w.cooldownMs == 500 * n
    ensures Run(w, Repeat(NOTHING, n)) == w.(cooldownMs := 0, time := w.time + 500 * n)
  {
    RepeatedTurns(NOTHING, n);
    CooldownIsWaitedOut(w, n, Repeat(NOTHING, n));
  }

  lemma {:induction false} WaitingInVain(w: Watcher, n: nat)
    requires w.usb.WaitingForAccessory? && w.usb.waitedMs + 500 * n <= 8000
    ensures Run(w, Repeat(NOTHING, n))
         == w.(usb := WaitingForAccessory(w.usb.waitedMs + 500 * n), time := w.time + 500 * n)
    decreases n
  {
    if n > 0 {
      var ts := Repeat(NOTHING, n);
      assert ts[0] == NOTHING && ts[1..] == Repeat(NOTHING, n - 1);
      WaitingInVain(Step(w, NOTHING), n - 1);
    }
  }

  lemma RunCons(w: Watcher, t: Turn, turns: seq<Turn>)
    ensures Run(w, [t] + turns) == Run(Step(w, t), turns)
  {
    assert ([t] + turns)[1..] == turns;
  }

  // Both spacings are attained from every idle state without a cooldown, so
  // neither bound can be raised.
  lemma QuickSpacingIsTight(w: Watcher) returns (turns: seq<Turn>)
    requires w.usb.Idle? && w.cooldownMs == 0
    ensures Run(w, turns).switches == w.switches + [Switch(w.time, false), Switch(w.time + 3000, false)]
  {
    var s1 := Step(w, SWITCHES);
    var s2 := Step(s1, FINDS);
    var s3 := Step(s2, NOTHING);
    var s4 := s3.(cooldownMs := 0, time := s3.time + 2000);
    var t4 := Repeat(NOTHING, 4) + [SWITCHES];
    CoolingDown(s3, 4);
    RunAppend(s3, Repeat(NOTHING, 4), [SWITCHES]);
    RunCons(s4, SWITCHES, []);
    assert [SWITCHES] + [] == [SWITCHES];
    RunCons(s2, NOTHING, t4);
    RunCons(s1, FINDS, [NOTHING] + t4);
    RunCons(w, SWITCHES, [FINDS] + ([NOTHING] + t4));
    turns := [SWITCHES] + ([FINDS] + ([NOTHING] + t4));
  }

  lemma SlowSpacingIsTight(w: Watcher) returns (turns: seq<Turn>)
    requires w.usb.Idle? && w.cooldownMs == 0
    ensures Run(w, turns).switches == w.switches + [Switch(w.time, true), Switch(w.time + 13500, false)]
  {
    var s1 := Step(w, SWITCHES);
    var s2 := s1.(usb := WaitingForAccessory(8000), time := s1.time + 8000);
    var s3 := Step(s2, NOTHING);
    var s4 := s3.(cooldownMs := 0, time := s3.time + 5000);
    var t3 := Repeat(NOTHING, 10) + [SWITCHES];
    WaitingInVain(s1, 16);
    CoolingDown(s3, 10);
    RunAppend(s3, Repeat(NOTHING, 10), [SWITCHES]);
    RunCons(s4, SWITCHES, []);
    assert [SWITCHES] + [] == [SWITCHES];
    RunCons(s2, NOTHING, t3);
    RunAppend(s1, Repeat(NOTHING, 16), [NOTHING] + t3);
    RunCons(w, SWITCHES, Repeat(NOTHING, 16) + ([NOTHING] + t3));
    turns := [SWITCHES] + (Repeat(NOTHING, 16) + ([NOTHING] + t3));
  }

  // ----- the loop -----

  // The watcher's endless loop, followed for as many turns as are given.
  method Watch(turns: seq<Turn>) returns (w: Watcher)
    ensures w == Run(START, turns)
    ensures w.usb.WaitingForAccessory? ==> w.usb.waitedMs <= 8000
    ensures forall i, j | 0 <= i < j < |w.switches| ::
              w.switches[j].at - w.switches[i].at >= Spacing(w.switches[i])
  {
    var state, switchCooldownMs: nat := Idle, 0;
    var time: nat, switches := 0, [];
    var k := 0;
    while k < |turns|
      invariant k <= |turns|
      invariant Run(Watcher(state, switchCooldownMs, time, switches), turns[k..]) == Run(START, turns)
    {
      var t := turns[k];
      assert turns[k..][1..] == turns[k + 1..];
      k := k + 1;
      match state {
        case Idle =>
          if t.sessionActive {
            time := time + 500;
            continue;
          }
          if switchCooldownMs > 0 {
            switchCooldownMs := if switchCooldownMs < 500 then 0 else switchCooldownMs - 500;
            time := time + 500;
            continue;
          }
          time := time + t.took;
          if t.found {
            state := Connected;
          } else if t.switched {
            state := WaitingForAccessory(0);
            switches := switches + [Switch(time, false)];
          } else {
            time := time + 1500;
          }
        case WaitingForAccessory(waitedMs) =>
          time := time + 500 + t.took;
          state := WaitingForAccessory(waitedMs + 500);
          if t.found {
            state := Connected;
          } else if waitedMs + 500 > 8000 {
            state := Idle;
            switchCooldownMs := 5000;
            switches := TimedOut(switches);
          }
        case Connected =>
          if !t.sessionActive {
            state := Idle;
            switchCooldownMs := 2000;
          }
          time := time + 500;
      }
    }
    w := Watcher(state, switchCooldownMs, time, switches);
    RunKeepsInv(START, turns);
    forall i, j | 0 <= i < j < |w.switches|
      ensures w.switches[j].at - w.switches[i].at >= Spacing(w.switches[i])
    {
      ApartAddsUp(w.switches, i, j);
    }
  }
}
