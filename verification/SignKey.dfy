/** GpgSignKeyEditInteractor: transition table, listing cursor and replies. */
module SignKey {
  import opened Errors
  import opened Integers
  import opened EditTypes

  const COMMAND: nat := 1
  const UIDS_ANSWER_SIGN_ALL: nat := 2
  const UIDS_LIST_SEPARATELY: nat := 3
  // all states in between belong to UIDS_LIST_SEPARATELY
  const UIDS_LIST_SEPARATELY_DONE: nat := 1000000
  const SET_EXPIRE: nat := 1000001
  const SET_CHECK_LEVEL: nat := 1000002
  const SET_TRUST_VALUE: nat := 1000003
  const SET_TRUST_DEPTH: nat := 1000004
  const SET_TRUST_REGEXP: nat := 1000005
  const CONFIRM: nat := 1000006
  const QUIT: nat := 1000007
  const SAVE: nat := 1000008

  type CheckLevel = x: int | 0 <= x <= 3

  datatype SignOptions = SignOptions(exportable: bool, nonRevocable: bool, trust: bool)

  datatype Settings = Settings(options: SignOptions, checkLevel: CheckLevel, userIDs: seq<UInt32>)

  predicate Listing(state: nat) {
    UIDS_LIST_SEPARATELY <= state < UIDS_LIST_SEPARATELY_DONE
  }

  function Command(o: SignOptions): string {
    var local := !o.exportable;
    if local && o.nonRevocable && o.trust then "ltnrsign"
    else if local && o.nonRevocable then "lnrsign"
    else if local && o.trust then "ltsign"
    else if local then "lsign"
    else if o.nonRevocable && o.trust then "tnrsign"
    else if o.nonRevocable then "nrsign"
    else if o.trust then "tsign"
    else "sign"
  }

  /** Reads a signing mode the way the command-line test does: the letters in front of "sign". */
  function ReadMode(mode: string): SignOptions
    requires 4 <= |mode|
  {
    var letters := mode[..|mode| - 4];
    SignOptions('l' !in letters, exists i :: 0 <= i < |letters| - 1 && letters[i] == 'n' && letters[i + 1] == 'r',
                't' in letters)
  }

  /** Every combination of options is spelled "[l][t][nr]sign", so the command determines them. */
  lemma CommandRoundTrip(o: SignOptions)
    ensures Command(o) == (if o.exportable then "" else "l") + (if o.trust then "t" else "")
                          + (if o.nonRevocable then "nr" else "") + "sign"
    ensures ReadMode(Command(o)) == o
  {
    var letters := Command(o)[..|Command(o)| - 4];
    assert o.nonRevocable ==> letters[|letters| - 2] == 'n' && letters[|letters| - 1] == 'r';
  }

  function Answer(b: bool): string {
    if b then "Y" else "N"
  }

  function Digit(d: nat): (c: char)
    requires d < 10
  {
    "0123456789"[d]
  }

  /** `ss << n` for an unsigned number. */
  function Decimal(n: nat): (s: string)
    ensures s != ""
  {
    if n < 10 then [Digit(n)] else Decimal(n / 10) + [Digit(n % 10)]
  }

  function DigitValue(c: char): int {
    c as int - '0' as int
  }

  function ReadDecimal(s: string): int {
    if s == "" then 0 else 10 * ReadDecimal(s[..|s| - 1]) + DigitValue(s[|s| - 1])
  }

  /** What is sent identifies the number: its digits, without a leading zero, read back as it. */
  lemma {:induction false} DecimalRoundTrip(n: nat)
    ensures ReadDecimal(Decimal(n)) == n
    ensures forall i :: 0 <= i < |Decimal(n)| ==> '0' <= Decimal(n)[i] <= '9'
    ensures 10 <= n ==> Decimal(n)[0] != '0'
  {
    if n < 10 {
      assert Decimal(n)[..0] == "";
      assert ReadDecimal(Decimal(n)) == 10 * ReadDecimal("") + DigitValue(Digit(n));
    } else {
      DecimalRoundTrip(n / 10);
      var s := Decimal(n);
      assert s[..|s| - 1] == Decimal(n / 10);
    }
  }

  /** The number sent for a selected user id: `*currentId + 1` in unsigned arithmetic. */
  function Wanted(id: UInt32): UInt32 {
    (id + 1) % 0x1_0000_0000
  }

  function CheckLevelString(level: CheckLevel): string {
    [Digit(level)]
  }

  /** What `action` does in `state` with `cursor` ids already handed out by nextUserID. */
  function Action(cfg: Settings, cursor: nat, state: nat): Act
    requires cursor <= |cfg.userIDs|
  {
    if state == COMMAND then Reply(Command(cfg.options))
    else if state == UIDS_ANSWER_SIGN_ALL then Reply(Answer(SignAll(cfg)))
    else if state == UIDS_LIST_SEPARATELY_DONE then Reply(Command(cfg.options))
    else if state == SET_EXPIRE then Reply(Answer(true))
    else if state == SET_TRUST_VALUE || state == SET_TRUST_DEPTH || state == SET_TRUST_REGEXP then NoReply
    else if state == SET_CHECK_LEVEL then Reply(CheckLevelString(cfg.checkLevel))
    else if state == CONFIRM then Reply(Answer(true))
    else if state == QUIT then Reply("quit")
    else if state == SAVE then Reply(Answer(true))
    else if Listing(state) then
      if cursor == |cfg.userIDs| then AssertionFailure
      else Reply(Decimal(Wanted(cfg.userIDs[cursor])))
    else ActionError(General)
  }

  datatype Key = Key(state: nat, ask: Ask)

  /** The transition table as it reads once every later entry has replaced an earlier one. */
  function Transition(k: Key): Option<nat> {
    var Key(state, Ask(status, prompt)) := k;
    if status.GetLine? then
      match prompt
      case KeyeditPrompt =>
        if state == START_STATE then Some(COMMAND)
        else if state == CONFIRM then Some(QUIT)
        else if state == UIDS_LIST_SEPARATELY_DONE then Some(COMMAND)
        else if state == ERROR_STATE then Some(QUIT)
        else None
      case SignUidExpire =>
        if state == UIDS_ANSWER_SIGN_ALL || state == CONFIRM || state == UIDS_LIST_SEPARATELY_DONE
        then Some(SET_EXPIRE) else None
      case SignUidClass =>
        if state == UIDS_ANSWER_SIGN_ALL || state == CONFIRM || state == UIDS_LIST_SEPARATELY_DONE
        then Some(SET_CHECK_LEVEL) else None
      case TrustValue =>
        if state == CONFIRM || state == UIDS_LIST_SEPARATELY_DONE then Some(SET_TRUST_VALUE) else None
      case TrustDepth => if state == SET_TRUST_VALUE then Some(SET_TRUST_DEPTH) else None
      case TrustRegexp => if state == SET_TRUST_DEPTH then Some(SET_TRUST_REGEXP) else None
      case SignUidOkay => if state == SET_TRUST_REGEXP then Some(CONFIRM) else None
      case _ => None
    else if status.GetBool? then
      match prompt
      case SignAllOkay => if state == COMMAND then Some(UIDS_ANSWER_SIGN_ALL) else None
      case SignUidOkay =>
        if state == COMMAND || state == UIDS_ANSWER_SIGN_ALL || state == SET_CHECK_LEVEL
           || state == CONFIRM || state == UIDS_LIST_SEPARATELY_DONE
        then Some(CONFIRM) else None
      case SignUidClass => if state == SET_EXPIRE then Some(SET_CHECK_LEVEL) else None
      case LocalPromoteOkay =>
        if state == CONFIRM || state == UIDS_LIST_SEPARATELY_DONE then Some(CONFIRM) else None
      case KeyeditSaveOkay => if state == QUIT then Some(SAVE) else None
      case _ => None
    else None
  }

  predicate SignAll(cfg: Settings) {
    cfg.userIDs == []
  }

  /** The cases nextState handles outside the table. */
  function Unlisted(cfg: Settings, cursor: nat, state: nat, lastError: Error,
                    ask: Ask): Next
  {
    if state == UIDS_ANSWER_SIGN_ALL && ask.Line(KeyeditPrompt) then
      if !SignAll(cfg) then Next(UIDS_LIST_SEPARATELY, NoError)
      else Next(ERROR_STATE, UnusablePubkey)
    else if Listing(state) && ask.Line(KeyeditPrompt) then
      Next(if cursor == |cfg.userIDs| then UIDS_LIST_SEPARATELY_DONE else state + 1, NoError)
    else if state == CONFIRM || state == ERROR_STATE then Next(ERROR_STATE, lastError)
    else Next(ERROR_STATE, General)
  }

  function NextState(cfg: Settings, cursor: nat, state: nat, lastError: Error,
                     ask: Ask): Next
  {
    if NeedsNoResponse(ask) then Next(state, NoError)
    else
      match Transition(Key(state, ask))
      case Some(next) => Next(next, NoError)
      case None => Unlisted(cfg, cursor, state, lastError, ask)
  }

  function Lookup(tab: map<Key, nat>, k: Key): Option<nat> {
    if k in tab then Some(tab[k]) else None
  }

  ghost predicate IsTable(tab: map<Key, nat>) {
    forall k: Key :: Lookup(tab, k) == Transition(k)
  }

  /** The states whose entries are all among the first eleven. */
  predicate Early(state: nat) {
    || state == START_STATE || state == COMMAND || state == UIDS_ANSWER_SIGN_ALL
    || SET_EXPIRE <= state <= SET_TRUST_REGEXP
  }

  method AddEarlyEntries() returns (tab: map<Key, nat>)
    ensures forall k: Key :: Lookup(tab, k) == if Early(k.state) then Transition(k) else None
  {
    tab := map[];
    tab := tab[Key(START_STATE, Ask(GetLine, KeyeditPrompt)) := COMMAND];
    tab := tab[Key(COMMAND, Ask(GetBool, SignAllOkay)) := UIDS_ANSWER_SIGN_ALL];
    tab := tab[Key(COMMAND, Ask(GetBool, SignUidOkay)) := CONFIRM];
    tab := tab[Key(UIDS_ANSWER_SIGN_ALL, Ask(GetBool, SignUidOkay)) := CONFIRM];
    tab := tab[Key(UIDS_ANSWER_SIGN_ALL, Ask(GetLine, SignUidExpire)) := SET_EXPIRE];
    tab := tab[Key(UIDS_ANSWER_SIGN_ALL, Ask(GetLine, SignUidClass)) := SET_CHECK_LEVEL];
    tab := tab[Key(SET_TRUST_VALUE, Ask(GetLine, TrustDepth)) := SET_TRUST_DEPTH];
    tab := tab[Key(SET_TRUST_DEPTH, Ask(GetLine, TrustRegexp)) := SET_TRUST_REGEXP];
    tab := tab[Key(SET_TRUST_REGEXP, Ask(GetLine, SignUidOkay)) := CONFIRM];
    tab := tab[Key(SET_CHECK_LEVEL, Ask(GetBool, SignUidOkay)) := CONFIRM];
    tab := tab[Key(SET_EXPIRE, Ask(GetBool, SignUidClass)) := SET_CHECK_LEVEL];
    forall k: Key
      ensures Lookup(tab, k) == if Early(k.state) then Transition(k) else None
    {
      assert k == Key(k.state, Ask(k.ask.status, k.ask.prompt));
    }
  }

  /** makeTable: entries are assigned in source order, so the second entry for CONFIRM with a GET_LINE
      "keyedit.prompt" replaces the first. */
  method MakeTable() returns (tab: map<Key, nat>)
    ensures IsTable(tab)
  {
    tab := AddEarlyEntries();
    tab := tab[Key(CONFIRM, Ask(GetBool, LocalPromoteOkay)) := CONFIRM];
    tab := tab[Key(CONFIRM, Ask(GetBool, SignUidOkay)) := CONFIRM];
    tab := tab[Key(CONFIRM, Ask(GetLine, KeyeditPrompt)) := COMMAND];
    tab := tab[Key(CONFIRM, Ask(GetLine, TrustValue)) := SET_TRUST_VALUE];
    tab := tab[Key(CONFIRM, Ask(GetLine, SignUidExpire)) := SET_EXPIRE];
    tab := tab[Key(CONFIRM, Ask(GetLine, SignUidClass)) := SET_CHECK_LEVEL];
    tab := tab[Key(UIDS_LIST_SEPARATELY_DONE, Ask(GetBool, LocalPromoteOkay)) := CONFIRM];
    tab := tab[Key(UIDS_LIST_SEPARATELY_DONE, Ask(GetLine, KeyeditPrompt)) := COMMAND];
    tab := tab[Key(UIDS_LIST_SEPARATELY_DONE, Ask(GetLine, TrustValue)) := SET_TRUST_VALUE];
    tab := tab[Key(UIDS_LIST_SEPARATELY_DONE, Ask(GetLine, SignUidExpire)) := SET_EXPIRE];
    tab := tab[Key(UIDS_LIST_SEPARATELY_DONE, Ask(GetLine, SignUidClass)) := SET_CHECK_LEVEL];
    tab := tab[Key(UIDS_LIST_SEPARATELY_DONE, Ask(GetBool, SignUidOkay)) := CONFIRM];
    tab := tab[Key(CONFIRM, Ask(GetLine, KeyeditPrompt)) := QUIT];
    tab := tab[Key(ERROR_STATE, Ask(GetLine, KeyeditPrompt)) := QUIT];
    tab := tab[Key(QUIT, Ask(GetBool, KeyeditSaveOkay)) := SAVE];
    forall k: Key
      ensures Lookup(tab, k) == Transition(k)
    {
      assert k == Key(k.state, Ask(k.ask.status, k.ask.prompt));
    }
  }

  /** GpgSignKeyEditInteractor::Private. */
  class Private {
    var started: bool
    var options: SignOptions
    var userIDs: seq<UInt32>
    var currentId: nat
    var nextId: nat
    var checkLevel: CheckLevel
    const table: map<Key, nat>

    ghost predicate Valid()
      reads this
    {
      && nextId <= |userIDs|
      && (nextId > 0 ==> currentId == nextId - 1)
      && IsTable(table)
    }

    function Set(): Settings
      reads this
    {
      Settings(options, checkLevel, userIDs)
    }

    constructor ()
      ensures Valid() && !started && nextId == 0
      ensures Set() == Settings(SignOptions(false, false, false), 0, [])
    {
      started := false;
      options := SignOptions(false, false, false);
      userIDs, currentId, nextId := [], 0, 0;
      checkLevel := 0;
      var tab := MakeTable();
      table := tab;
    }

    method SetCheckLevel(level: CheckLevel)
      requires Valid() && !started
      modifies this`checkLevel
      ensures Valid() && Set() == old(Set()).(checkLevel := level)
    {
      checkLevel := level;
    }

    method SetUserIDsToSign(ids: seq<UInt32>)
      requires Valid() && !started
      modifies this`userIDs, this`nextId, this`currentId
      ensures Valid() && Set() == old(Set()).(userIDs := ids) && nextId == 0
    {
      userIDs := ids;
      nextId := 0;
      currentId := |ids|;
    }

    method SetSigningOptions(o: SignOptions)
      requires Valid() && !started
      modifies this`options
      ensures Valid() && Set() == old(Set()).(options := o)
    {
      options := o;
    }

    method NextUserID() returns (id: UInt32)
      requires Valid() && nextId < |userIDs|
      modifies this`currentId, this`nextId
      ensures Valid() && nextId == old(nextId) + 1
      ensures id == Wanted(userIDs[old(nextId)])
    {
      currentId := nextId;
      nextId := nextId + 1;
      id := Wanted(userIDs[currentId]);
    }

    method DoAction(state: nat) returns (a: Act)
      requires Valid()
      modifies this`currentId, this`nextId
      ensures Valid() && a == Action(Set(), old(nextId), state)
      ensures nextId == if Listing(state) && a.Reply? then old(nextId) + 1 else old(nextId)
    {
      if state == COMMAND {
        a := Reply(Command(options));
      } else if state == UIDS_ANSWER_SIGN_ALL {
        a := Reply(Answer(SignAll(Set())));
      } else if state == UIDS_LIST_SEPARATELY_DONE {
        a := Reply(Command(options));
      } else if state == SET_EXPIRE {
        a := Reply(Answer(true));
      } else if state in {SET_TRUST_VALUE, SET_TRUST_DEPTH, SET_TRUST_REGEXP} {
        a := NoReply;
      } else if state == SET_CHECK_LEVEL {
        a := Reply(CheckLevelString(checkLevel));
      } else if state == CONFIRM {
        a := Reply(Answer(true));
      } else if state == QUIT {
        a := Reply("quit");
      } else if state == SAVE {
        a := Reply(Answer(true));
      } else if Listing(state) {
        if nextId == |userIDs| {
          return AssertionFailure;
        }
        var id := NextUserID();
        a := Reply(Decimal(id));
      } else {
        a := ActionError(General);
      }
    }

    method DoNextState(state: nat, lastError: Error, ask: Ask) returns (n: Next)
      requires Valid()
      modifies this`started
      ensures Valid() && started
      ensures n == NextState(Set(), nextId, state, lastError, ask)
    {
      started := true;
      if NeedsNoResponse(ask) {
        return Next(state, NoError);
      }
      var row := Find(Key(state, ask));
      match row {
        case Some(next) => n := Next(next, NoError);
        case None => n := DoUnlisted(state, lastError, ask);
      }
    }

    method Find(k: Key) returns (row: Option<nat>)
      requires IsTable(table)
      ensures row == Transition(k)
    {
      assert Lookup(table, k) == Transition(k);
      if k in table {
        return Some(table[k]);
      }
      return None;
    }

    method DoUnlisted(state: nat, lastError: Error, ask: Ask) returns (n: Next)
      ensures n == Unlisted(Set(), nextId, state, lastError, ask)
    {
      var atPrompt := ask.Line(KeyeditPrompt);
      if state == UIDS_ANSWER_SIGN_ALL && atPrompt {
        n := if !SignAll(Set()) then Next(UIDS_LIST_SEPARATELY, NoError)
             else Next(ERROR_STATE, UnusablePubkey);
      } else if Listing(state) && atPrompt {
        n := Next(if nextId == |userIDs| then UIDS_LIST_SEPARATELY_DONE else state + 1, NoError);
      } else if state == CONFIRM || state == ERROR_STATE {
        n := Next(ERROR_STATE, lastError);
      } else {
        n := Next(ERROR_STATE, General);
      }
    }
  }
}
