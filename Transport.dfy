/** The serial connection the display is driven through (`this._port` and `_write` of the
    `Display` class in src/display.js). Opening the port and moving bytes over the wire are
    foreign I/O; what the protocol depends on is which writes are issued, in what order,
    with what contents, and which of them the transport rejects. */
module Transport {
  import opened FrameCodec

  /** A serial port. `written` records every write call in order; `faults` holds the positions
      of the calls (counted from 0 since the port was opened) whose completion callback
      reports an error. */
  class SerialPort {
    const faults: set<nat>
    var written: seq<seq<Byte>>

    constructor (faults: set<nat>)
      ensures this.faults == faults && written == []
    {
      this.faults := faults;
      written := [];
    }

    /** `_write(bytes)`: hands the bytes to the port; resolves (`true`) or rejects (`false`). */
    method Write(bytes: seq<Byte>) returns (ok: bool)
      modifies this
      ensures written == old(written) + [bytes]
      ensures ok == (|old(written)| !in faults)
    {
      ok := |written| !in faults;
      written := written + [bytes];
    }
  }

  /** No write call at positions `start` .. `start + n - 1` is rejected. */
  predicate Accepted(faults: set<nat>, start: nat, n: nat)
  {
    forall i :: start <= i < start + n ==> i !in faults
  }

  /** The writes that reach the port when `plan` is sent one awaited write after another,
      the first at call position `start`: every write up to and including the first one
      rejected, and nothing after it. */
  function Issued(plan: seq<seq<Byte>>, start: nat, faults: set<nat>): (sent: seq<seq<Byte>>)
    ensures |sent| <= |plan| && sent == plan[..|sent|]
    ensures plan != [] ==> sent != []
    decreases |plan|
  {
    if plan == [] then []
    else if start in faults then [plan[0]]
    else [plan[0]] + Issued(plan[1..], start + 1, faults)
  }

  /** Sending write `k` of a plan after writes 0 .. k - 1 extends the log to writes 0 .. k. */
  lemma {:induction false} SentOneMore(log: seq<seq<Byte>>, plan: seq<seq<Byte>>, k: nat)
    requires k < |plan|
    ensures log + plan[..k] + [plan[k]] == log + plan[..k + 1]
  {
    assert plan[..k + 1] == plan[..k] + [plan[k]];
  }

  /** When no write of the plan is rejected, the whole plan is issued. */
  lemma {:induction false} IssuedAll(plan: seq<seq<Byte>>, start: nat, faults: set<nat>)
    requires Accepted(faults, start, |plan|)
    ensures Issued(plan, start, faults) == plan
    decreases |plan|
  {
    if plan != [] {
      assert start !in faults;
      IssuedAll(plan[1..], start + 1, faults);
      assert plan == [plan[0]] + plan[1..];
    }
  }

  /** When write `k` of the plan is the first one rejected, exactly writes 0 .. k are issued:
      no later write is attempted. */
  lemma {:induction false} IssuedStopsAtFault(plan: seq<seq<Byte>>, start: nat, faults: set<nat>, k: nat)
    requires k < |plan| && Accepted(faults, start, k) && start + k in faults
    ensures Issued(plan, start, faults) == plan[..k + 1]
    decreases k
  {
    if k > 0 {
      assert start !in faults;
      IssuedStopsAtFault(plan[1..], start + 1, faults, k - 1);
      assert plan[..k + 1] == [plan[0]] + plan[1..][..k];
    }
  }

  /** Sending two plans back to back, the second only if the whole first was accepted,
      issues the same writes as sending them as one plan. */
  lemma {:induction false} IssuedAppend(first: seq<seq<Byte>>, second: seq<seq<Byte>>, start: nat, faults: set<nat>)
    ensures Issued(first + second, start, faults)
         == if Accepted(faults, start, |first|) then first + Issued(second, start + |first|, faults)
            else Issued(first, start, faults)
    decreases |first|
  {
    if first != [] {
      var whole := first + second;
      assert whole[0] == first[0] && whole[1..] == first[1..] + second;
      if start in faults {
        assert !Accepted(faults, start, |first|);
        assert Issued(whole, start, faults) == [first[0]] == Issued(first, start, faults);
      } else {
        IssuedAppend(first[1..], second, start + 1, faults);
        assert Accepted(faults, start, |first|) <==> Accepted(faults, start + 1, |first| - 1);
        assert Issued(whole, start, faults) == [first[0]] + Issued(first[1..] + second, start + 1, faults);
        assert Issued(first, start, faults) == [first[0]] + Issued(first[1..], start + 1, faults);
        assert first == [first[0]] + first[1..];
      }
    } else {
      assert first + second == second;
    }
  }
}
