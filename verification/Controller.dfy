/** The multi-port controller: it starts the ports of an array in turn, fans a tick out over
    all of them, and computes when the next tick is due. */
module Controller {
  import opened Status
  import opened Octets
  import opened DeviceParameters
  import opened Port
  import Schedule

  // ---- specification ---------------------------------------------------------

  /** The first negative result, or 0. */
  function FirstError(rets: seq<int>): (e: int)
    ensures e <= 0
    ensures e == 0 <==> forall i :: 0 <= i < |rets| ==> rets[i] >= 0
  {
    if rets == [] then 0 else if rets[0] < 0 then rets[0] else FirstError(rets[1..])
  }

  lemma {:induction false} FirstErrorAppend(rets: seq<int>, ret: int)
    ensures FirstError(rets + [ret]) == if FirstError(rets) != 0 then FirstError(rets) else if ret < 0 then ret else 0
  {
    if rets != [] {
      assert (rets + [ret])[1..] == rets[1..] + [ret];
      FirstErrorAppend(rets[1..], ret);
    } else {
      assert [ret][1..] == [];
    }
  }

  ghost predicate AllWf(ports: seq<Port>)
  {
    forall i :: 0 <= i < |ports| ==> Wf(ports[i])
  }

  /** Every port after its driven tick. */
  function TickAll(ports: seq<Port>, envs: seq<Env>): (r: seq<Port>)
    requires AllWf(ports) && |envs| == |ports|
    ensures |r| == |ports|
  {
    seq(|ports|, i requires 0 <= i < |ports| => Drive(ports[i], envs[i]).0)
  }

  function Results(ports: seq<Port>, envs: seq<Env>): (r: seq<int>)
    requires AllWf(ports) && |envs| == |ports|
    ensures |r| == |ports|
  {
    seq(|ports|, i requires 0 <= i < |ports| => Drive(ports[i], envs[i]).1)
  }

  /** `next` is the earliest time any port wants a tick. */
  predicate IsEarliest(ports: seq<Port>, now: u32, next: u32)
  {
    if ports == [] then next == now
    else
      && (exists i :: 0 <= i < |ports| && NextTick(ports[i].config, ports[i].link, now) == next)
      && (forall i :: 0 <= i < |ports| ==> next <= NextTick(ports[i].config, ports[i].link, now))
  }

  /** The controller's hint is not in the past, and until then its ticks without input change no port
      and report no error. */
  lemma ControllerHintIsSound(ports: seq<Port>, now: u32, next: u32, envs: seq<Env>)
    requires AllWf(ports) && |envs| == |ports| && IsEarliest(ports, now, next)
    requires forall i :: 0 <= i < |ports| ==>
               && Schedule.NoInput(envs[i]) && now <= Now(envs[i]) < next
               && !Schedule.Behind(ports[i].config, ports[i].link, now)
    ensures next >= now && TickAll(ports, envs) == ports && FirstError(Results(ports, envs)) == 0
  {
    hide Wf, Drive, NextTick, Schedule.Behind;
    if ports != [] {
      var k :| 0 <= k < |ports| && NextTick(ports[k].config, ports[k].link, now) == next;
      Schedule.HintIsNotPast(ports[k].config, ports[k].link, now);
    }
    forall i | 0 <= i < |ports| ensures Drive(ports[i], envs[i]) == (ports[i], OK) {
      Schedule.HintIsSound(ports[i], now, envs[i]);
    }
  }

  // ---- the controller ----------------------------------------------------------

  class Controller {
    const ports: array<Port>
    var count: nat

    ghost predicate Valid()
      reads this, ports
    {
      count <= ports.Length && AllWf(ports[..])
    }

    constructor (ports: array<Port>)
      requires AllWf(ports[..])
      ensures Valid() && this.ports == ports && count == 0
    {
      this.ports := ports;
      count := 0;
    }

    /** Initialise the ports in order; stop at the first that fails and manage the ones before it. No port
        is an invalid argument. */
    method Init(configs: seq<Config>, capacity: nat, phyInits: seq<int>, envs: seq<Env>) returns (ret: int)
      requires Valid() && ports.Length == |configs| == |phyInits| == |envs| && 16 <= capacity <= 256
      modifies this, ports
      ensures Valid()
      ensures ports.Length == 0 ==> ret == ERR_INVALID_ARG && count == old(count)
      ensures ports.Length > 0 ==>
                && (forall i :: 0 <= i < count ==> ports[i] == Started(old(ports[..])[i], configs[i], capacity))
                && (forall i :: count < i < ports.Length ==> ports[i] == old(ports[i]))
                && (if ret == OK then count == ports.Length
                    else && count < ports.Length
                         && (ports[count], ret) == InitPort(old(ports[..])[count], configs[count], capacity,
                                                            phyInits[count], envs[count]))
    {
      hide Started, Initialisable, Wf, InitPort;
      if ports.Length == 0 {
        return ERR_INVALID_ARG;
      }
      count := ports.Length;
      for i := 0 to ports.Length
        invariant count == ports.Length && AllWf(ports[..])
        invariant forall j :: 0 <= j < i ==> ports[j] == Started(old(ports[..])[j], configs[j], capacity)
        invariant forall j :: i <= j < ports.Length ==> ports[j] == old(ports[j])
      {
        InitResult(ports[i], configs[i], capacity, phyInits[i], envs[i]);
        var (port, code) := InitPort(ports[i], configs[i], capacity, phyInits[i], envs[i]);
        ports[i] := port;
        if code != OK {
          count := i;
          return code;
        }
      }
      return OK;
    }

    /** One timed tick of every port; an error on one does not keep the others from theirs. */
    method TickAt(envs: seq<Env>) returns (firstError: int)
      requires Valid() && |envs| == ports.Length
      modifies ports
      ensures Valid() && count == old(count)
      ensures ports[..count] == TickAll(old(ports[..count]), envs[..count])
      ensures ports[count..] == old(ports[count..])
      ensures firstError == FirstError(Results(old(ports[..count]), envs[..count]))
    {
      hide Wf, Drive;
      ghost var before := ports[..];
      ghost var rets: seq<int> := [];
      firstError := OK;
      for i := 0 to count
        invariant AllWf(ports[..]) && |rets| == i
        invariant forall j :: 0 <= j < i ==> Wf(before[j]) && (ports[j], rets[j]) == Drive(before[j], envs[j])
        invariant forall j :: i <= j < ports.Length ==> ports[j] == before[j]
        invariant firstError == FirstError(rets)
      {
        assert Wf(ports[..][i]);
        var (port, ret) := Drive(ports[i], envs[i]);
        ports[i] := port;
        FirstErrorAppend(rets, ret);
        rets := rets + [ret];
        if ret < 0 && firstError == 0 {
          firstError := ret;
        }
      }
      assert rets == Results(before[..count], envs[..count]);
      assert old(ports[..count]) == before[..count];
    }

    /** The earliest time any managed port wants a tick. */
    method GetNextTickTime(now: u32) returns (next: u32)
      requires Valid()
      ensures IsEarliest(ports[..count], now, next)
    {
      hide NextTick, Wf;
      if count == 0 {
        return now;
      }
      next := U32 - 1;
      for i := 0 to count
        invariant i == 0 ==> next == U32 - 1
        invariant i > 0 ==> exists j :: 0 <= j < i && NextTick(ports[j].config, ports[j].link, now) == next
        invariant forall j :: 0 <= j < i ==> next <= NextTick(ports[j].config, ports[j].link, now)
      {
        var portNext := NextTick(ports[i].config, ports[i].link, now);
        if portNext < next {
          next := portNext;
        }
      }
      var k :| 0 <= k < count && NextTick(ports[k].config, ports[k].link, now) == next;
      assert NextTick(ports[..count][k].config, ports[..count][k].link, now) == next;
    }
  }

  /** Initialisation succeeds only with the started port, an IO-Link one being at its first rate in SDCI,
      and any port it leaves behind is well formed. */
  lemma InitResult(before: Port, c: Config, cap: nat, phyInit: int, env: Env)
    requires Wf(before) && 16 <= cap <= 256
    ensures var (p, ret) := InitPort(before, c, cap, phyInit, env);
            && Wf(p)
            && (ret == OK ==> p == Started(before, c, cap) && (c.portMode == ModeIoLink ==> p == Initial(c, cap)))
            && (ret == OK || !Initialisable(c) || p.link.state == Error)
  {
    if Initialisable(c) {
      forall rate, mode ensures Wf(Reset(c, cap, rate, mode)) { InitialIsWf(c, cap, rate, mode); }
    }
  }
}
