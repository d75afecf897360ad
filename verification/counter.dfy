/** The count of running games in src/daemon/bpf/bpf-user.c. Each handler is one atomic step; the
    detection results it depends on come with the event. */
module GameCounter {
  import opened Games

  /** A process event carries the game list in force and whether the process looks like an engine or a
      Steam game; a bus signal carries its member name and whether its argument could be read. */
  datatype Event =
    | Process(names: seq<string>, comm: string, isExit: bool, engine: bool)
    | Signal(member: string, readable: bool)

  /** Launches count one up, exits one down, whatever detected them. */
  function Delta(e: Event): int {
    match e
    case Process(names, comm, isExit, engine) =>
      if isExit then -1 else if Match(names, comm) || engine then 1 else 0
    case Signal(member, readable) =>
      if !readable then 0
      else if member == "GameRegistered" then 1
      else if member == "GameUnregistered" then -1
      else 0
  }

  /** `active_games` after a history: it never falls below zero. */
  function Count(es: seq<Event>): nat {
    if es == [] then 0
    else
      var c := Count(es[..|es| - 1]) + Delta(es[|es| - 1]);
      if c < 0 then 0 else c
  }

  lemma CountSnoc(es: seq<Event>, e: Event)
    ensures var c := Count(es) + Delta(e);
      Count(es + [e]) == if c < 0 then 0 else c
  {
    assert (es + [e])[..|es|] == es;
  }

  /** What each event does to the counter: a detected launch adds one, by the game list or as an engine or Steam
      game; an exit takes one, whatever exits; GameMode registers and unregisters; nothing else counts. */
  lemma CountSteps(es: seq<Event>, names: seq<string>, comm: string, engine: bool, member: string)
    ensures Match(names, comm) || engine ==> Count(es + [Process(names, comm, false, engine)]) == Count(es) + 1
    ensures !Match(names, comm) && !engine ==> Count(es + [Process(names, comm, false, engine)]) == Count(es)
    ensures Count(es + [Process(names, comm, true, engine)]) == if Count(es) == 0 then 0 else Count(es) - 1
    ensures Count(es + [Signal("GameRegistered", true)]) == Count(es) + 1
    ensures Count(es + [Signal("GameUnregistered", true)]) == if Count(es) == 0 then 0 else Count(es) - 1
    ensures Count(es + [Signal(member, false)]) == Count(es)
    ensures member != "GameRegistered" && member != "GameUnregistered"
      ==> Count(es + [Signal(member, true)]) == Count(es)
  {
    CountSnoc(es, Process(names, comm, false, engine));
    CountSnoc(es, Process(names, comm, true, engine));
    CountSnoc(es, Signal("GameRegistered", true));
    CountSnoc(es, Signal("GameUnregistered", true));
    CountSnoc(es, Signal(member, false));
    CountSnoc(es, Signal(member, true));
    hide Match, Count;
  }

  /** A launch and an exit leave the counter as it was, however each was noticed. */
  lemma LaunchThenExit(es: seq<Event>, launch: Event, exit: Event)
    requires launch == Signal("GameRegistered", true)
      || (launch.Process? && !launch.isExit && (Match(launch.names, launch.comm) || launch.engine))
    requires exit == Signal("GameUnregistered", true) || (exit.Process? && exit.isExit)
    ensures Count(es + [launch] + [exit]) == Count(es)
  {
    CountSnoc(es, launch);
    CountSnoc(es + [launch], exit);
    hide Match, Count;
  }

  /** Launches minus exits. */
  function Balance(es: seq<Event>): int {
    if es == [] then 0 else Balance(es[..|es| - 1]) + Delta(es[|es| - 1])
  }

  lemma BalanceOfSuffix(es: seq<Event>, e: Event, i: nat)
    requires i <= |es|
    ensures Balance((es + [e])[i..]) == Balance(es[i..]) + Delta(e)
  {
    var s := (es + [e])[i..];
    assert s[..|s| - 1] == es[i..] && s[|s| - 1] == e;
  }

  lemma {:induction false} BalanceSplit(es: seq<Event>, i: nat)
    requires i <= |es|
    ensures Balance(es) == Balance(es[..i]) + Balance(es[i..])
    decreases |es|
  {
    if i == |es| {
      assert es[..i] == es && es[i..] == [];
    } else {
      var n := |es| - 1;
      BalanceSplit(es[..n], i);
      assert es[..n][..i] == es[..i] && es[i..][..n - i] == es[..n][i..];
    }
  }

  /** The counter is the maximum of launches minus exits over all suffixes of the history, the empty one
      included. */
  lemma {:induction false} CountIsMaxSuffix(es: seq<Event>) returns (best: nat)
    ensures best <= |es| && Count(es) == Balance(es[best..])
    ensures forall i :: 0 <= i <= |es| ==> Balance(es[i..]) <= Count(es)
  {
    if es == [] {
      best := 0;
    } else {
      var n := |es| - 1;
      var init, e := es[..n], es[n];
      assert es == init + [e];
      best := CountIsMaxSuffix(init);
      forall i | 0 <= i <= |es| ensures Balance(es[i..]) <= Count(es) {
        if i <= n {
          BalanceOfSuffix(init, e, i);
        } else {
          assert es[i..] == [];
        }
      }
      BalanceOfSuffix(init, e, best);
      if Balance(init[best..]) + Delta(e) < 0 {
        best := |es|;
        assert es[best..] == [];
      }
    }
  }

  /** A game counts as running if and only if some suffix of the history has more launches than exits. */
  lemma GameRunningIff(es: seq<Event>)
    ensures Count(es) > 0 <==> exists i :: 0 <= i <= |es| && Balance(es[i..]) > 0
  {
    var best := CountIsMaxSuffix(es);
  }

  /** Clamping at zero is the only source of drift: the counter is exact if and only if no prefix of the
      history has more exits than launches. */
  lemma CountIsExactIff(es: seq<Event>)
    ensures Count(es) >= Balance(es)
    ensures Count(es) == Balance(es) <==> forall i :: 0 <= i <= |es| ==> Balance(es[..i]) >= 0
  {
    var best := CountIsMaxSuffix(es);
    assert es[0..] == es;
    BalanceSplit(es, best);
    forall i | 0 <= i <= |es| ensures Balance(es[..i]) == Balance(es) - Balance(es[i..]) {
      BalanceSplit(es, i);
    }
  }

  /** The process-wide counter and its handlers. */
  class Tracker {
    var active: nat
    ghost var history: seq<Event>

    ghost predicate Valid()
      reads this
    {
      active == Count(history)
    }

    constructor ()
      ensures Valid() && history == []
    {
      active, history := 0, [];
    }

    /** `handle_event`, branch by branch. */
    method HandleEvent(list: GameList, comm: string, isExit: bool, engine: bool)
      requires Valid()
      modifies this
      ensures Valid() && history == old(history) + [Process(list.names, comm, isExit, engine)]
    {
      ghost var e := Process(list.names, comm, isExit, engine);
      CountSnoc(history, e);
      hide Count, Match;
      var matched := list.Matches(comm);
      if matched {
        if isExit {
          if active > 0 { active := active - 1; }
        } else {
          active := active + 1;
        }
      } else if !isExit && engine {
        active := active + 1;
      } else if isExit && active > 0 {
        active := active - 1;
      }
      history := history + [e];
    }

    /** `on_gamemode_signal`. */
    method OnSignal(member: string, readable: bool)
      requires Valid()
      modifies this
      ensures Valid() && history == old(history) + [Signal(member, readable)]
    {
      ghost var e := Signal(member, readable);
      CountSnoc(history, e);
      hide Count, Match;
      if readable {
        if member == "GameRegistered" {
          active := active + 1;
        } else if member == "GameUnregistered" {
          if active > 0 { active := active - 1; }
        }
      }
      history := history + [e];
    }

    /** `bpf_game`. */
    method GameRunning() returns (running: bool)
      requires Valid()
      ensures running <==> exists i :: 0 <= i <= |history| && Balance(history[i..]) > 0
    {
      GameRunningIff(history);
      running := active > 0;
    }
  }
}
