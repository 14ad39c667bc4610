/**
 * The TV One video processor as the mixer sees it: a store of registers
 * addressed by (channel, window, func), and a log of every request the
 * controller issued, in order. Whether the serial link acknowledges a
 * request is outside the controller's knowledge, so every outcome is
 * nondeterministic.
 */
module TVOneDevice {

  datatype Register = Register(channel: int, window: int, func: int)

  /** One register write: the register addressed and the payload. */
  datatype Setting = Setting(channel: int, window: int, func: int, payload: int)
  {
    function Target(): Register { Register(channel, window, func) }
  }

  datatype Request =
    | Write(setting: Setting)
    | Read(register: Register)
    | ResolutionSet(resolution: int, edidSlot: int)
    | HDCPSet(on: bool)
    | PeriodsReset
    | PeriodsIncreased(ms: int)

  /** The requests a chain of `ok = ok && ...` may be made of. */
  predicate Action(r: Request) { r.Write? || r.ResolutionSet? || r.HDCPSet? }

  /** The register a request writes, if any. */
  function Apply(registers: map<Register, int>, r: Request): (after: map<Register, int>)
    ensures r.Write? ==> after == registers[r.setting.Target() := r.setting.payload]
    ensures !r.Write? ==> after == registers
  {
    if r.Write? then registers[r.setting.Target() := r.setting.payload] else registers
  }

  /** The registers after every write of a script took effect, in order. */
  function ApplyAll(registers: map<Register, int>, script: seq<Request>): (r: map<Register, int>)
    ensures forall g :: g in registers ==> g in r
    decreases |script|
  {
    if |script| == 0 then registers
    else ApplyAll(Apply(registers, script[0]), script[1..])
  }

  /** A script's last write to a register decides that register's final value. */
  lemma {:induction false} ApplyAllLastWins(registers: map<Register, int>, script: seq<Request>, i: int)
    requires 0 <= i < |script| && script[i].Write?
    requires forall j :: i < j < |script| && script[j].Write? ==> script[j].setting.Target() != script[i].setting.Target()
    ensures script[i].setting.Target() in ApplyAll(registers, script)
    ensures ApplyAll(registers, script)[script[i].setting.Target()] == script[i].setting.payload
    decreases |script|
  {
    var next := Apply(registers, script[0]);
    if i == 0 {
      ApplyAllUntouched(next, script[1..], script[0].setting.Target());
    } else {
      ApplyAllLastWins(next, script[1..], i - 1);
    }
  }

  /** A register no write of the script addresses keeps its value. */
  lemma {:induction false} ApplyAllUntouched(registers: map<Register, int>, script: seq<Request>, g: Register)
    requires g in registers
    requires forall j :: 0 <= j < |script| && script[j].Write? ==> script[j].setting.Target() != g
    ensures ApplyAll(registers, script)[g] == registers[g]
    decreases |script|
  {
    if |script| > 0 {
      ApplyAllUntouched(Apply(registers, script[0]), script[1..], g);
    }
  }

  lemma {:induction false} ApplyAllSplit(registers: map<Register, int>, script: seq<Request>, n: int)
    requires 0 <= n < |script|
    ensures ApplyAll(registers, script[..n + 1]) == Apply(ApplyAll(registers, script[..n]), script[n])
    decreases n
  {
    if n > 0 {
      assert script[..n + 1][1..] == script[1..][..n];
      assert script[..n][1..] == script[1..][..n - 1];
      ApplyAllSplit(Apply(registers, script[0]), script[1..], n - 1);
    }
  }

  /**
   * The requests a chain `ok = r0; ok = ok && r1; ...` issues: a non-empty
   * prefix of the script, all of it when every request succeeded, and a
   * shorter prefix only when its last request failed.
   */
  predicate ChainSent(sent: seq<Request>, script: seq<Request>, ok: bool)
  {
    if |script| == 0 then sent == [] && ok
    else 1 <= |sent| <= |script| && sent == script[..|sent|] && (ok ==> |sent| == |script|)
  }

  /** A successful chain issued exactly the script. */
  lemma ChainSentComplete(sent: seq<Request>, script: seq<Request>)
    requires ChainSent(sent, script, true)
    ensures sent == script
  {
  }

  /** A chain stopped short of its script failed. */
  lemma ChainSentShortFailed(sent: seq<Request>, script: seq<Request>, ok: bool)
    requires ChainSent(sent, script, ok) && |sent| < |script|
    ensures !ok
  {
  }

  class Processor {
    /** The firmware version the processor reports; 423 has output additive mixing. */
    const version: int
    var registers: map<Register, int>
    var requests: seq<Request>

    constructor (version: int, registers: map<Register, int>)
      ensures this.version == version && this.registers == registers && requests == []
    {
      this.version := version;
      this.registers := registers;
      requests := [];
    }

    /**
     * Write one register. An acknowledged write took effect; an
     * unacknowledged one may or may not have.
     */
    method Command(channel: int, window: int, func: int, payload: int) returns (ok: bool)
      modifies this`registers, this`requests
      ensures requests == old(requests) + [Write(Setting(channel, window, func, payload))]
      ensures ok ==> registers == old(registers)[Register(channel, window, func) := payload]
      ensures !ok ==> registers == old(registers) || registers == old(registers)[Register(channel, window, func) := payload]
    {
      requests := requests + [Write(Setting(channel, window, func, payload))];
      ok := *;
      var applied := ok;
      if !ok {
        applied := *;
      }
      if applied {
        registers := registers[Register(channel, window, func) := payload];
      }
    }

    /**
     * Read one register. A successful read returns the stored value; a
     * failed one leaves the caller's payload as it was.
     */
    method ReadCommand(channel: int, window: int, func: int, payloadIn: int) returns (ok: bool, payload: int)
      modifies this`requests
      ensures requests == old(requests) + [Read(Register(channel, window, func))]
      ensures ok ==> Register(channel, window, func) in registers && payload == registers[Register(channel, window, func)]
      ensures !ok ==> payload == payloadIn
    {
      requests := requests + [Read(Register(channel, window, func))];
      var g := Register(channel, window, func);
      ok := false;
      if g in registers {
        ok := *;
      }
      payload := if ok then registers[g] else payloadIn;
    }

    method SetResolution(resolution: int, edidSlot: int) returns (ok: bool)
      modifies this`requests
      ensures requests == old(requests) + [ResolutionSet(resolution, edidSlot)]
    {
      requests := requests + [ResolutionSet(resolution, edidSlot)];
      ok := *;
    }

    method SetHDCPOn(on: bool) returns (ok: bool)
      modifies this`requests
      ensures requests == old(requests) + [HDCPSet(on)]
    {
      requests := requests + [HDCPSet(on)];
      ok := *;
    }

    method ResetCommandPeriods()
      modifies this`requests
      ensures requests == old(requests) + [PeriodsReset]
    {
      requests := requests + [PeriodsReset];
    }

    method IncreaseCommandPeriods(ms: int)
      modifies this`requests
      ensures requests == old(requests) + [PeriodsIncreased(ms)]
    {
      requests := requests + [PeriodsIncreased(ms)];
    }

    /** One request of a chain, sent with the operation that carries it. */
    method Perform(r: Request) returns (ok: bool)
      requires Action(r)
      modifies this`registers, this`requests
      ensures requests == old(requests) + [r]
      ensures ok ==> registers == Apply(old(registers), r)
      ensures !r.Write? ==> registers == old(registers)
    {
      match r {
        case Write(c) => ok := Command(c.channel, c.window, c.func, c.payload);
        case ResolutionSet(resolution, slot) => ok := SetResolution(resolution, slot);
        case HDCPSet(on) => ok := SetHDCPOn(on);
      }
    }

    /**
     * The chain `ok = r0; ok = ok && r1; ...`: each request is sent only
     * while every earlier one succeeded. When all succeeded, every register
     * holds what the script wrote.
     */
    method CommandChain(script: seq<Request>) returns (ok: bool)
      requires forall i :: 0 <= i < |script| ==> Action(script[i])
      modifies this`registers, this`requests
      ensures |requests| >= |old(requests)| && requests[..|old(requests)|] == old(requests)
      ensures ChainSent(requests[|old(requests)|..], script, ok)
      ensures ok ==> registers == ApplyAll(old(registers), script)
    {
      ok := true;
      var n := 0;
      ghost var start := requests;
      ghost var before := registers;
      while n < |script| && ok
        invariant 0 <= n <= |script|
        invariant requests == start + script[..n]
        invariant n == 0 ==> ok
        invariant ok ==> registers == ApplyAll(before, script[..n])
      {
        ok := Perform(script[n]);
        ApplyAllSplit(before, script, n);
        assert script[..n + 1] == script[..n] + [script[n]];
        n := n + 1;
      }
      assert requests[|start|..] == script[..n];
      assert ok ==> script[..n] == script;
    }
  }
}
