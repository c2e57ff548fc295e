/** A file descriptor whose `write` may be short or fail, and the two write loops that use it. */
module Descriptor {
  import opened Sequences

  /** What the next `write` of `offered` bytes returns. A schedule entry is a negated errno or a
      limit on the bytes taken (zero stalls); an exhausted schedule takes everything. */
  function Outcome(schedule: seq<int>, offered: nat): (n: int)
    ensures n <= offered
  {
    if schedule == [] then offered
    else if schedule[0] < offered then schedule[0]
    else offered
  }

  function Rest(schedule: seq<int>): seq<int> {
    if schedule == [] then [] else schedule[1..]
  }

  predicate NoFailure(schedule: seq<int>) {
    forall i :: 0 <= i < |schedule| ==> 0 <= schedule[i]
  }

  datatype Transfer = Transfer(bytes: string, result: int, rest: seq<int>)

  class Fd {
    var wire: string
    var schedule: seq<int>

    constructor (schedule: seq<int>)
      ensures wire == "" && this.schedule == schedule
    {
      wire := "";
      this.schedule := schedule;
    }

    /** One `write` call offering `data`. */
    method Write(data: string) returns (n: int)
      modifies this
      ensures n == Outcome(old(schedule), |data|)
      ensures schedule == Rest(old(schedule))
      ensures wire == if n < 0 then old(wire) else old(wire) + data[..n]
    {
      n := Outcome(schedule, |data|);
      schedule := Rest(schedule);
      if 0 <= n {
        wire := wire + data[..n];
      }
    }

    /** CallbackHelper::writeAll. The buffer pointer is not advanced after a short write, so every
        call offers the front of `buf` again. */
    method WriteAll(buf: string) returns (result: int)
      modifies this
      ensures var t := SendAll(buf, |buf|, old(schedule));
              wire == old(wire) + t.bytes && schedule == t.rest && result == t.result
    {
      var toWrite := |buf|;
      ghost var total, sent := SendAll(buf, |buf|, schedule), "";
      while toWrite > 0
        invariant 0 <= toWrite <= |buf|
        invariant wire == old(wire) + sent
        invariant total == Prepend(sent, SendAll(buf, toWrite, schedule))
        decreases |schedule|, toWrite
      {
        ghost var t := SendAll(buf, toWrite, schedule);
        var n := Write(buf[..toWrite]);
        if n < 0 {
          assert t == Transfer("", n, schedule);
          return n;
        }
        assert buf[..toWrite][..n] == buf[..n];
        toWrite := toWrite - n;
        ghost var t' := SendAll(buf, toWrite, schedule);
        assert t == Prepend(buf[..n], t');
        Associate(sent, buf[..n], t'.bytes);
        Associate(old(wire), sent, buf[..n]);
        sent := sent + buf[..n];
      }
      assert SendAll(buf, toWrite, schedule) == Transfer("", |buf|, schedule);
      return |buf|;
    }

    /** The do-while loop of passphrase_callback, which does advance its buffer. */
    method Deliver(data: string) returns (result: int)
      requires data != ""
      modifies this
      ensures var p := Progress(|data|, 0, old(schedule));
              wire == old(wire) + data[..p.written] && schedule == p.rest && result == p.result
    {
      var written := 0;
      var more := true;
      while more
        invariant 0 <= written <= |data| && (more <==> written < |data|)
        invariant wire == old(wire) + data[..written]
        invariant Progress(|data|, 0, old(schedule)) == Progress(|data|, written, schedule)
        decreases |schedule|, |data| - written
      {
        var n := Write(data[written..]);
        if n < 0 {
          return n;
        }
        Associate(old(wire), data[..written], data[written..][..n]);
        assert data[..written] + data[written..][..n] == data[..written + n];
        written := written + n;
        more := written < |data|;
      }
      return 0;
    }
  }

  function Prepend(bytes: string, t: Transfer): Transfer {
    t.(bytes := bytes + t.bytes)
  }

  /** What WriteAll puts on the wire while `toWrite` bytes of `buf` are still counted as unwritten. */
  function SendAll(buf: string, toWrite: nat, schedule: seq<int>): Transfer
    requires toWrite <= |buf|
    decreases |schedule|, toWrite
  {
    if toWrite == 0 then Transfer("", |buf|, schedule)
    else
      var n := Outcome(schedule, toWrite);
      if n < 0 then Transfer("", n, Rest(schedule))
      else
        Prepend(buf[..n], SendAll(buf, toWrite - n, Rest(schedule)))
  }

  datatype Delivery = Delivery(written: nat, result: int, rest: seq<int>)

  /** How far the passphrase loop gets once `written` of `total` bytes are out. */
  function Progress(total: nat, written: nat, schedule: seq<int>): (d: Delivery)
    requires written <= total
    ensures written <= d.written <= total
    decreases |schedule|, total - written
  {
    if written == total then Delivery(written, 0, schedule)
    else
      var n := Outcome(schedule, total - written);
      if n < 0 then Delivery(written, n, Rest(schedule))
      else Progress(total, written + n, Rest(schedule))
  }

  /** Everything is delivered exactly when no write failed. */
  lemma {:induction false} ProgressIsComplete(total: nat, written: nat, schedule: seq<int>)
    requires written <= total
    ensures var d := Progress(total, written, schedule);
            && d.result <= 0 && (d.result == 0 <==> d.written == total)
            && (NoFailure(schedule) ==> d.result == 0 && NoFailure(d.rest))
    decreases |schedule|, total - written
  {
    if written != total {
      var n := Outcome(schedule, total - written);
      if 0 <= n {
        ProgressIsComplete(total, written + n, Rest(schedule));
      }
    }
  }

  /** The entries of the schedule that a transfer uses up. */
  function Used(buf: string, toWrite: nat, schedule: seq<int>): (used: seq<int>)
    requires toWrite <= |buf|
    ensures schedule == used + SendAll(buf, toWrite, schedule).rest
    decreases |schedule|
  {
    if toWrite == 0 then []
    else if schedule == [] then
      assert SendAll(buf, 0, []).rest == [];
      []
    else if schedule[0] < 0 then [schedule[0]]
    else [schedule[0]] + Used(buf, toWrite - Outcome(schedule, toWrite), schedule[1..])
  }

  /** The result of WriteAll is the count or a failure; without failing writes it is the count, and then as
      many bytes were written. */
  lemma {:induction false} SendAllSucceeds(buf: string, toWrite: nat, schedule: seq<int>)
    requires toWrite <= |buf|
    ensures var t := SendAll(buf, toWrite, schedule); t.result == |buf| || t.result < 0
    ensures var t := SendAll(buf, toWrite, schedule);
            NoFailure(schedule) ==> t.result == |buf| && NoFailure(t.rest)
    ensures SendAll(buf, toWrite, schedule).result == |buf| ==>
              |SendAll(buf, toWrite, schedule).bytes| == toWrite
    decreases |schedule|, toWrite
  {
    if toWrite != 0 {
      var n := Outcome(schedule, toWrite);
      if 0 <= n {
        SendAllSucceeds(buf, toWrite - n, Rest(schedule));
      }
    }
  }

  lemma NoFailureCons(first: int, rest: seq<int>)
    ensures NoFailure([first] + rest) <==> 0 <= first && NoFailure(rest)
  {
    var all := [first] + rest;
    assert all[0] == first;
    if NoFailure(all) {
      assert forall i :: 0 <= i < |rest| ==> rest[i] == all[i + 1];
    } else {
      var i :| 0 <= i < |all| && all[i] < 0;
      assert i > 0 ==> all[i] == rest[i - 1];
    }
  }

  /** WriteAll reports success exactly when no write it made failed. */
  lemma {:induction false} SucceedsIff(buf: string, toWrite: nat, schedule: seq<int>)
    requires toWrite <= |buf|
    ensures SendAll(buf, toWrite, schedule).result == |buf| <==> NoFailure(Used(buf, toWrite, schedule))
    decreases |schedule|
  {
    if toWrite == 0 {
    } else if schedule == [] {
      assert SendAll(buf, 0, []).result == |buf|;
    } else if 0 <= schedule[0] {
      var left := toWrite - Outcome(schedule, toWrite);
      SucceedsIff(buf, left, schedule[1..]);
      NoFailureCons(schedule[0], Used(buf, left, schedule[1..]));
    }
  }

  /** The write that failed was the first to fail, `result` is what it returned, and it was the last made. */
  predicate FailedFirst(schedule: seq<int>, result: int, rest: seq<int>) {
    && |rest| < |schedule|
    && var k := |schedule| - |rest| - 1;
       schedule[k] == result < 0 && rest == schedule[k + 1..] && NoFailure(schedule[..k])
  }

  lemma FailedLater(schedule: seq<int>, result: int, rest: seq<int>)
    requires schedule != [] && 0 <= schedule[0] && FailedFirst(schedule[1..], result, rest)
    ensures FailedFirst(schedule, result, rest)
  {
    var k := |schedule| - |rest| - 1;
    assert schedule[..k][1..] == schedule[1..][..k - 1];
    assert forall i :: 1 <= i < k ==> schedule[..k][i] == schedule[1..][..k - 1][i - 1];
  }

  /** A failure of WriteAll is that of the first write that failed. */
  lemma {:induction false} SendAllErrno(buf: string, toWrite: nat, schedule: seq<int>)
    requires toWrite <= |buf| && SendAll(buf, toWrite, schedule).result < 0
    ensures var t := SendAll(buf, toWrite, schedule); FailedFirst(schedule, t.result, t.rest)
    decreases |schedule|, toWrite
  {
    var n := Outcome(schedule, toWrite);
    if 0 <= n {
      SendAllErrno(buf, toWrite - n, Rest(schedule));
      FailedLater(schedule, SendAll(buf, toWrite, schedule).result, SendAll(buf, toWrite, schedule).rest);
    }
  }

  /** A failure of the passphrase loop is that of the first write that failed; otherwise the loop used up the
      beginning of the schedule. */
  lemma {:induction false} ProgressErrno(total: nat, written: nat, schedule: seq<int>)
    requires written <= total
    ensures var d := Progress(total, written, schedule);
            && |d.rest| <= |schedule| && d.rest == schedule[|schedule| - |d.rest|..]
            && (d.result < 0 ==> FailedFirst(schedule, d.result, d.rest))
    decreases |schedule|, total - written
  {
    if written != total {
      var n := Outcome(schedule, total - written);
      if 0 <= n {
        ProgressErrno(total, written + n, Rest(schedule));
        var d := Progress(total, written, schedule);
        if d.result < 0 {
          FailedLater(schedule, d.result, d.rest);
        }
      }
    }
  }

  predicate Uniform(buf: string) {
    forall i :: 0 <= i < |buf| ==> buf[i] == buf[0]
  }

  lemma UniformJoin(buf: string, n: nat, k: nat)
    requires Uniform(buf) && n <= k <= |buf|
    ensures buf[..n] + buf[..k - n] == buf[..k]
  {
    assert forall i :: 0 <= i < |buf| ==> buf[i] == buf[0];
  }

  lemma {:induction false} SendAllOfUniform(buf: string, toWrite: nat, schedule: seq<int>)
    requires toWrite <= |buf| && Uniform(buf)
    requires SendAll(buf, toWrite, schedule).result == |buf|
    ensures SendAll(buf, toWrite, schedule).bytes == buf[..toWrite]
    decreases |schedule|, toWrite
  {
    if toWrite != 0 {
      var n := Outcome(schedule, toWrite);
      assert 0 <= n;
      SendAllOfUniform(buf, toWrite - n, Rest(schedule));
      UniformJoin(buf, n, toWrite);
    }
  }

  ghost predicate AlwaysExact(buf: string) {
    forall schedule: seq<int> {:trigger SendAll(buf, |buf|, schedule)} ::
      SendAll(buf, |buf|, schedule).result == |buf| ==> SendAll(buf, |buf|, schedule).bytes == buf
  }

  /** After a first write of one byte the buffer is offered from the front again; only a uniform one arrives. */
  lemma OneByteFirst(buf: string)
    requires 1 < |buf|
    ensures SendAll(buf, |buf|, [1]) == Transfer(buf[..1] + buf[..|buf| - 1], |buf|, [])
    ensures SendAll(buf, |buf|, [1]).bytes == buf ==> Uniform(buf)
  {
    assert SendAll(buf, 0, []) == Transfer("", |buf|, []);
    assert SendAll(buf, |buf| - 1, []) == Transfer(buf[..|buf| - 1] + "", |buf|, []);
    assert buf[..|buf| - 1] + "" == buf[..|buf| - 1];
    assert Rest([1]) == [];
    var wire := buf[..1] + buf[..|buf| - 1];
    assert SendAll(buf, |buf|, [1]).bytes == wire;
    if wire == buf {
      assert forall i :: 0 < i < |buf| ==> wire[i] == buf[i - 1];
      UniformFromShift(buf, |buf|);
    }
  }

  /** Delivering exactly the buffer whenever success is reported fails for writeAll; it holds for
      exactly the buffers whose bytes are all equal (in particular for the one-byte newline). */
  lemma WriteAllExactIffUniform(buf: string)
    ensures AlwaysExact(buf) <==> Uniform(buf)
  {
    if Uniform(buf) {
      forall schedule: seq<int> | SendAll(buf, |buf|, schedule).result == |buf|
        ensures SendAll(buf, |buf|, schedule).bytes == buf
      {
        SendAllOfUniform(buf, |buf|, schedule);
        assert buf[..|buf|] == buf;
      }
    }
    if AlwaysExact(buf) && 1 < |buf| {
      OneByteFirst(buf);
    }
  }

  lemma {:induction false} UniformFromShift(buf: string, k: nat)
    requires k <= |buf|
    requires forall i :: 0 < i < |buf| ==> buf[i] == buf[i - 1]
    ensures forall i :: 0 <= i < k ==> buf[i] == buf[0]
  {
    if 1 < k {
      UniformFromShift(buf, k - 1);
      assert buf[k - 1] == buf[k - 2];
    }
  }

  /** "quit" sent with a first write of one byte arrives as "qqui". */
  lemma WriteAllCounterexample()
    ensures SendAll("quit", 4, [1]).result == 4
    ensures SendAll("quit", 4, [1]).bytes == "qqui"
  {
    assert Rest([1]) == [];
    assert SendAll("quit", 3, []).bytes == "qui" + "";
  }

  /** A descriptor that never cuts a write short gets the buffer. */
  lemma WholeWrite(buf: string)
    ensures SendAll(buf, |buf|, []) == Transfer(buf, |buf|, [])
  {
    if buf != "" {
      assert SendAll(buf, 0, []) == Transfer("", |buf|, []);
      assert buf[..|buf|] + "" == buf;
    }
  }
}
