/** passphrase_callback: deliver a passphrase over a descriptor, wipe it, end the line. */
module Callbacks {
  import opened Errors
  import opened Descriptor

  /** The string a zero-terminated buffer holds. */
  function CString(buffer: seq<char>): (s: string)
    requires '\0' in buffer
    ensures |s| < |buffer| && s == buffer[..|s|] && buffer[|s|] == '\0' && '\0' !in s
  {
    if buffer[0] == '\0' then "" else [buffer[0]] + CString(buffer[1..])
  }

  datatype Exchange = Exchange(bytes: string, err: Error)

  /** One newline is attempted with a single write whose result is ignored. */
  function Newline(schedule: seq<int>): string {
    if Outcome(schedule, 1) == 1 then "\n" else ""
  }

  /** What the callback has sent before the newline. */
  function Sent(passphrase: string, canceled: bool, schedule: seq<int>): Delivery {
    if canceled then Delivery(0, 0, schedule) else Progress(|passphrase|, 0, schedule)
  }

  /** What a callback puts on the wire and returns. */
  function Reply(passphrase: string, canceled: bool, schedule: seq<int>): Exchange {
    var d := Sent(passphrase, canceled, schedule);
    Exchange(passphrase[..d.written] + Newline(d.rest),
             if canceled then Canceled else if d.result < 0 then SystemError(-d.result) else NoError)
  }

  /** Every write takes at least one byte. */
  predicate Progressing(schedule: seq<int>) {
    forall i :: 0 <= i < |schedule| ==> 1 <= schedule[i]
  }

  lemma {:induction false} ProgressingRest(total: nat, written: nat, schedule: seq<int>)
    requires written <= total && Progressing(schedule)
    ensures Progressing(Progress(total, written, schedule).rest)
    decreases |schedule|, total - written
  {
    if written != total {
      ProgressingRest(total, written + Outcome(schedule, total - written), Rest(schedule));
    }
  }

  /** For every schedule of partial writes that make progress the passphrase arrives as exactly its
      bytes and one newline, and no error is reported. */
  lemma PassphraseArrives(passphrase: string, schedule: seq<int>)
    requires Progressing(schedule)
    ensures Reply(passphrase, false, schedule) == Exchange(passphrase + "\n", NoError)
  {
    ProgressIsComplete(|passphrase|, 0, schedule);
    ProgressingRest(|passphrase|, 0, schedule);
    assert passphrase[..|passphrase|] == passphrase;
  }

  /** In general a prefix arrives, the whole of it exactly when no error is reported; the error is the
      errno of a failed write. A cancelled request sends nothing of it. */
  lemma PrefixArrives(passphrase: string, canceled: bool, schedule: seq<int>)
    ensures var x := Reply(passphrase, canceled, schedule);
            exists sent, newline ::
              && x.bytes == sent + newline && sent <= passphrase && newline in {"", "\n"}
              && (canceled ==> sent == "" && x.err == Canceled)
              && (!canceled ==> (x.err == NoError <==> sent == passphrase))
              && (!canceled && x.err != NoError ==> x.err.SystemError? && 0 < x.err.errno)
  {
    var d := Sent(passphrase, canceled, schedule);
    ProgressIsComplete(|passphrase|, 0, schedule);
    var sent, newline := passphrase[..d.written], Newline(d.rest);
    assert Reply(passphrase, canceled, schedule).bytes == sent + newline;
    assert sent <= passphrase && (sent == passphrase <==> |sent| == |passphrase|);
    assert newline in {"", "\n"};
  }

  /** The newline is attempted whatever became of the passphrase: with the k-th write, after those that were
      made for the passphrase, it arrives unless that write takes nothing. A cancelled request makes none of
      them; the error of a failed one is the errno of the write right before the newline's. */
  lemma NewlineAttempted(passphrase: string, canceled: bool, schedule: seq<int>)
    ensures var x, sent := Reply(passphrase, canceled, schedule), Sent(passphrase, canceled, schedule).written;
            exists k ::
              && 0 <= k <= |schedule|
              && x.bytes == passphrase[..sent] + (if k < |schedule| && schedule[k] <= 0 then "" else "\n")
              && (canceled ==> k == 0 && sent == 0)
              && (!canceled && x.err != NoError ==>
                    0 < k && x.err.SystemError? && schedule[k - 1] == 0 - x.err.errno && NoFailure(schedule[..k - 1]))
  {
    ProgressErrno(|passphrase|, 0, schedule);
    ProgressIsComplete(|passphrase|, 0, schedule);
    var k := |schedule| - |Sent(passphrase, canceled, schedule).rest|;
    assert 0 <= k <= |schedule|;
  }

  function Secret(buffer: seq<char>): string {
    if '\0' in buffer then CString(buffer) else ""
  }

  method Send(passphrase: array?<char>, canceled: bool, fd: Fd) returns (err: Error)
    requires passphrase != null ==> '\0' in passphrase[..]
    modifies fd
    ensures var secret := if passphrase == null then "" else Secret(passphrase[..]);
            var d := Sent(secret, canceled, old(fd.schedule));
            && fd.wire == old(fd.wire) + secret[..d.written]
            && fd.schedule == d.rest
            && err == if canceled then Canceled else if d.result < 0 then SystemError(-d.result) else NoError
  {
    err := NoError;
    if canceled {
      err := Canceled;
    } else if passphrase != null && passphrase[0] != '\0' {
      var length := StrLen(passphrase);
      var result := fd.Deliver(passphrase[..length]);
      if result < 0 {
        err := SystemError(-result);
      }
    }
  }

  method Wipe(passphrase: array?<char>)
    requires passphrase != null ==> '\0' in passphrase[..]
    modifies passphrase
    ensures passphrase != null ==>
              var n := |Secret(old(passphrase[..]))|;
              && (forall i :: 0 <= i < n ==> passphrase[i] == '\0')
              && passphrase[n..] == old(passphrase[n..])
  {
    if passphrase != null && passphrase[0] != '\0' {
      var length := StrLen(passphrase);
      WipeMemory(passphrase, length);
    }
  }

  /** `passphrase` is the provider's answer, null or zero-terminated. On return every byte of the
      passphrase is zero, so it is wiped when the buffer is freed. */
  method PassphraseCallback(passphrase: array?<char>, canceled: bool, fd: Fd) returns (err: Error)
    requires passphrase != null ==> '\0' in passphrase[..]
    modifies fd, passphrase
    ensures var secret := if passphrase == null then "" else Secret(old(passphrase[..]));
            var x := Reply(secret, canceled, old(fd.schedule));
            fd.wire == old(fd.wire) + x.bytes && err == x.err
    ensures passphrase != null ==>
              var n := |Secret(old(passphrase[..]))|;
              && (forall i :: 0 <= i < n ==> passphrase[i] == '\0')
              && passphrase[n..] == old(passphrase[n..])
  {
    err := Send(passphrase, canceled, fd);
    Wipe(passphrase);
    var _ := fd.Write("\n");
  }

  method StrLen(buffer: array<char>) returns (length: nat)
    requires '\0' in buffer[..]
    ensures length == |CString(buffer[..])|
  {
    length := 0;
    while buffer[length] != '\0'
      invariant length <= |CString(buffer[..])|
      decreases buffer.Length - length
    {
      assert buffer[length] == buffer[..][length];
      length := length + 1;
    }
  }

  /** The macro wipememory. */
  method WipeMemory(buffer: array<char>, length: nat)
    requires length <= buffer.Length
    modifies buffer
    ensures forall i :: 0 <= i < length ==> buffer[i] == '\0'
    ensures buffer[length..] == old(buffer[length..])
  {
    var left, at := length, 0;
    while left > 0
      invariant at + left == length
      invariant forall i :: 0 <= i < at ==> buffer[i] == '\0'
      invariant buffer[length..] == old(buffer[length..])
    {
      buffer[at] := '\0';
      at, left := at + 1, left - 1;
    }
  }
}
