/** Active health: two atomic flags that one checker goroutine writes and every request reads. */
module ActiveHealth {

  datatype Flags = Flags(checked: bool, healthy: bool) {
    /** Fail-open until the first check has been published. */
    predicate Available() {
      !checked || healthy
    }
  }

  class Checker {
    var checked: bool
    var healthy: bool

    constructor ()
      ensures Value() == Flags(false, false)
    {
      checked, healthy := false, false;
    }

    ghost function Value(): Flags
      reads this
    {
      Flags(checked, healthy)
    }

    method Available() returns (ok: bool)
      ensures ok == Value().Available()
    {
      if !checked {
        return true;
      }
      return healthy;
    }

    method Update(ok: bool)
      modifies this
      ensures Value() == Flags(true, ok)
    {
      healthy := ok;
      checked := true;
    }

    method TakeSnapshot() returns (s: Flags)
      ensures s == Value()
    {
      s := Flags(checked, healthy);
    }
  }

  /** The writer is between checks, or has stored `healthy` and not yet `checked`. */
  datatype Writer = Idle | Publishing

  /** A call of `Available` that has seen `checked` set, or has returned. */
  datatype Reader = SawChecked | Returned(ok: bool)

  datatype System = System(flags: Flags, writer: Writer, readers: map<nat, Reader>)

  /** One atomic load or store. A reader's first load begins its call. */
  datatype Step =
    | StoreHealthy(value: bool)
    | StoreChecked
    | LoadChecked(reader: nat)
    | LoadHealthy(reader: nat)

  const Initially := System(Flags(false, false), Idle, map[])

  ghost predicate Enabled(s: System, step: Step) {
    match step
    case StoreHealthy(_) => s.writer.Idle?
    case StoreChecked => s.writer.Publishing?
    case LoadChecked(r) => r !in s.readers
    case LoadHealthy(r) => r in s.readers && s.readers[r].SawChecked?
  }

  ghost function After(s: System, step: Step): System {
    match step
    case StoreHealthy(v) => s.(flags := s.flags.(healthy := v), writer := Publishing)
    case StoreChecked => s.(flags := s.flags.(checked := true), writer := Idle)
    case LoadChecked(r) => s.(readers := s.readers[r := if s.flags.checked then SawChecked else Returned(true)])
    case LoadHealthy(r) => s.(readers := s.readers[r := Returned(s.flags.healthy)])
  }

  ghost function Run(h: seq<Step>): System {
    if h == [] then Initially else After(Run(h[..|h| - 1]), h[|h| - 1])
  }

  /** Any interleaving of one writer's stores with any number of readers' loads. */
  ghost predicate Interleaving(h: seq<Step>) {
    h == [] || (Interleaving(h[..|h| - 1]) && Enabled(Run(h[..|h| - 1]), h[|h| - 1]))
  }

  /** The value of the latest report that has been stored, if there is one. */
  ghost predicate LatestReport(h: seq<Step>, v: bool) {
    exists i :: LatestReportAt(h, i, v)
  }

  ghost predicate LatestReportAt(h: seq<Step>, i: int, v: bool) {
    0 <= i < |h| && h[i] == StoreHealthy(v) && forall k | i < k < |h| :: !h[k].StoreHealthy?
  }

  /** The flags after any interleaving: `checked` comes after some report, `healthy` is the latest report. */
  lemma {:induction false} FlagsHoldLatestReport(h: seq<Step>)
    requires Interleaving(h)
    ensures Run(h).writer.Publishing? || Run(h).flags.checked ==> LatestReport(h, Run(h).flags.healthy)
    ensures forall r | r in Run(h).readers && Run(h).readers[r].SawChecked? :: Run(h).flags.checked
  {
    if h != [] {
      var g, n := h[..|h| - 1], |h| - 1;
      FlagsHoldLatestReport(g);
      if h[n].StoreHealthy? {
        assert LatestReportAt(h, n, h[n].value);
      } else if LatestReport(g, Run(g).flags.healthy) {
        var i :| LatestReportAt(g, i, Run(g).flags.healthy);
        assert LatestReportAt(h, i, Run(g).flags.healthy);
      }
    }
  }

  /** The load at position j is the last load of reader r's call. */
  ghost predicate ReturnsAt(h: seq<Step>, j: int, r: nat, ok: bool) {
    && 0 <= j < |h| && (h[j] == LoadChecked(r) || h[j] == LoadHealthy(r))
    && r in Run(h[..j + 1]).readers && Run(h[..j + 1]).readers[r] == Returned(ok)
  }

  /** A call of `Available` takes effect at one moment: it returns what the two flags say together at its last load. */
  lemma {:induction false} AvailableIsAtomic(h: seq<Step>, r: nat) returns (j: nat)
    requires Interleaving(h) && r in Run(h).readers && Run(h).readers[r].Returned?
    ensures ReturnsAt(h, j, r, Run(h).readers[r].ok)
    ensures Interleaving(h[..j]) && Run(h).readers[r].ok == Run(h[..j]).flags.Available()
  {
    var g, n := h[..|h| - 1], |h| - 1;
    FlagsHoldLatestReport(g);
    if h[n] == LoadChecked(r) || h[n] == LoadHealthy(r) {
      j := n;
      assert h[..n + 1] == h;
    } else {
      j := AvailableIsAtomic(g, r);
      assert h[..j] == g[..j] && h[..j + 1] == g[..j + 1];
    }
  }

  /** A call returns false only on an unhealthy report, the latest one stored when the call took effect. */
  lemma FalseOnlyOnUnhealthyReport(h: seq<Step>, r: nat) returns (j: nat)
    requires Interleaving(h) && r in Run(h).readers && Run(h).readers[r] == Returned(false)
    ensures ReturnsAt(h, j, r, false)
    ensures LatestReport(h[..j], false)
  {
    j := AvailableIsAtomic(h, r);
    FlagsHoldLatestReport(h[..j]);
  }
}
