/** Key::mergeWith, the fingerprint it compares, and indexed subkey access. */
module Keys {
  import opened Errors
  import opened Chains
  import opened Sequences

  // ----- merging, on values -----

  /** The flags of a key; keylist_mode is the set of its bits. */
  datatype Flags = Flags(revoked: bool, expired: bool, disabled: bool, invalid: bool, canEncrypt: bool,
                         canSign: bool, canCertify: bool, secret: bool, canAuthenticate: bool, qualified: bool,
                         keylistMode: set<nat>)

  function Or(a: Flags, b: Flags): Flags {
    Flags(a.revoked || b.revoked, a.expired || b.expired, a.disabled || b.disabled, a.invalid || b.invalid,
          a.canEncrypt || b.canEncrypt, a.canSign || b.canSign, a.canCertify || b.canCertify,
          a.secret || b.secret, a.canAuthenticate || b.canAuthenticate, a.qualified || b.qualified,
          a.keylistMode + b.keylistMode)
  }

  datatype FlagName = Revoked | Expired | Disabled | Invalid | CanEncrypt | CanSign | CanCertify | Secret
                    | CanAuthenticate | Qualified | ModeBit(bit: nat)

  predicate Has(f: Flags, name: FlagName) {
    match name
    case Revoked => f.revoked
    case Expired => f.expired
    case Disabled => f.disabled
    case Invalid => f.invalid
    case CanEncrypt => f.canEncrypt
    case CanSign => f.canSign
    case CanCertify => f.canCertify
    case Secret => f.secret
    case CanAuthenticate => f.canAuthenticate
    case Qualified => f.qualified
    case ModeBit(bit) => bit in f.keylistMode
  }

  /** No flag is dropped, mixed up or made up: the merged flags are those of either key. */
  lemma OrIsUnion(a: Flags, b: Flags, name: FlagName)
    ensures Has(Or(a, b), name) <==> Has(a, name) || Has(b, name)
  {
  }

  /** A subkey as far as merging looks at it; a null string is None. */
  datatype Subkey = Subkey(fpr: Option<string>, keyid: Option<string>, isCardkey: bool)

  datatype KeyView = KeyView(flags: Flags, subkeys: seq<Subkey>)

  function PrimaryFingerprint(subkeys: seq<Subkey>): Option<string> {
    if subkeys == [] then None
    else if subkeys[0].fpr.Some? then subkeys[0].fpr
    else subkeys[0].keyid
  }

  function ToLower(c: char): char {
    if 'A' <= c <= 'Z' then (c as int - 'A' as int + 'a' as int) as char else c
  }

  /** strcasecmp(a, b) == 0. */
  predicate EqualIgnoringCase(a: string, b: string) {
    |a| == |b| && forall i :: 0 <= i < |a| ==> ToLower(a[i]) == ToLower(b[i])
  }

  predicate SameKey(a: seq<Subkey>, b: seq<Subkey>) {
    var x, y := PrimaryFingerprint(a), PrimaryFingerprint(b);
    x.Some? && y.Some? && EqualIgnoringCase(x.value, y.value)
  }

  /** Where the fingerprint first occurs, or the length. */
  function FirstIndex(subkeys: seq<Subkey>, fpr: Option<string>): (k: nat)
    ensures k <= |subkeys|
    ensures forall j :: 0 <= j < k ==> subkeys[j].fpr != fpr
    ensures k < |subkeys| ==> subkeys[k].fpr == fpr
  {
    FirstWhere(subkeys, (sk: Subkey) => sk.fpr == fpr)
  }

  /** The first subkey with the fingerprint. */
  function FirstMatch(subkeys: seq<Subkey>, fpr: Option<string>): Option<Subkey> {
    var k := FirstIndex(subkeys, fpr);
    if k < |subkeys| then Some(subkeys[k]) else None
  }

  function MergeSubkey(mine: Subkey, his: seq<Subkey>): Subkey {
    match FirstMatch(his, mine.fpr)
    case Some(sk) => mine.(isCardkey := mine.isCardkey || sk.isCardkey)
    case None => mine
  }

  function MergeSubkeys(mine: seq<Subkey>, his: seq<Subkey>): (r: seq<Subkey>)
    ensures |r| == |mine|
  {
    seq(|mine|, i requires 0 <= i < |mine| => MergeSubkey(mine[i], his))
  }

  function Merge(mine: KeyView, his: KeyView): KeyView {
    if SameKey(mine.subkeys, his.subkeys) then
      KeyView(Or(mine.flags, his.flags), MergeSubkeys(mine.subkeys, his.subkeys))
    else mine
  }

  /** The string that identifies a key: the first subkey's fingerprint or, failing that, its key id. */
  predicate Identifies(id: string, subkeys: seq<Subkey>) {
    && subkeys != []
    && (subkeys[0].fpr == Some(id) || (subkeys[0].fpr == None && subkeys[0].keyid == Some(id)))
  }

  /** The same character, or a capital letter and its small one. */
  predicate SameLetter(x: char, y: char) {
    || x == y
    || ('A' <= x <= 'Z' && y as int == x as int + 32)
    || ('A' <= y <= 'Z' && x as int == y as int + 32)
  }

  predicate Agree(x: string, y: string) {
    |x| == |y| && forall i :: 0 <= i < |x| ==> SameLetter(x[i], y[i])
  }

  lemma AgreeIsEqual(x: string, y: string)
    ensures Agree(x, y) <==> EqualIgnoringCase(x, y)
  {
    assert forall i :: 0 <= i < |x| == |y| ==> (SameLetter(x[i], y[i]) <==> ToLower(x[i]) == ToLower(y[i]));
  }

  lemma IdentityIs(subkeys: seq<Subkey>, id: string)
    ensures Identifies(id, subkeys) <==> PrimaryFingerprint(subkeys) == Some(id)
  {
  }

  /** Only keys whose identities agree letter by letter up to case are merged; such keys get each other's
      flags, flag by flag, and any others are left alone. */
  lemma MergesIffIdentitiesAgree(a: KeyView, b: KeyView, x: string, y: string, name: FlagName)
    requires Identifies(x, a.subkeys) && Identifies(y, b.subkeys)
    ensures !Agree(x, y) ==> Merge(a, b) == a
    ensures Agree(x, y) ==> (Has(Merge(a, b).flags, name) <==> Has(a.flags, name) || Has(b.flags, name))
    ensures Agree(x, y) ==> Merge(a, b).subkeys == MergeSubkeys(a.subkeys, b.subkeys)
  {
    IdentityIs(a.subkeys, x);
    IdentityIs(b.subkeys, y);
    AgreeIsEqual(x, y);
    OrIsUnion(a.flags, b.flags, name);
  }

  /** A key that nothing identifies is never merged. */
  lemma UnidentifiedIsLeftAlone(a: KeyView, b: KeyView)
    requires (forall x :: !Identifies(x, a.subkeys)) || (forall y :: !Identifies(y, b.subkeys))
    ensures Merge(a, b) == a
  {
    if SameKey(a.subkeys, b.subkeys) {
      var x, y := PrimaryFingerprint(a.subkeys).value, PrimaryFingerprint(b.subkeys).value;
      IdentityIs(a.subkeys, x);
      IdentityIs(b.subkeys, y);
    }
  }

  /** One letter that differs in more than case keeps keys apart. */
  lemma OneLetterKeepsApart(a: KeyView, b: KeyView, x: string, y: string, i: nat)
    requires Identifies(x, a.subkeys) && Identifies(y, b.subkeys)
    requires |x| != |y| || (i < |x| && !SameLetter(x[i], y[i]))
    ensures Merge(a, b) == a && Merge(b, a) == b
  {
    assert !Agree(x, y) && !Agree(y, x);
    MergesIffIdentitiesAgree(a, b, x, y, Revoked);
    MergesIffIdentitiesAgree(b, a, y, x, Revoked);
  }

  /** Which keys are merged does not depend on the case of any identity. */
  lemma CaseDoesNotMatter(a: seq<Subkey>, a': seq<Subkey>, b: seq<Subkey>, x: string, x': string)
    requires Identifies(x, a) && Identifies(x', a') && Agree(x, x')
    ensures SameKey(a, b) == SameKey(a', b) && SameKey(b, a) == SameKey(b, a')
  {
    IdentityIs(a, x);
    IdentityIs(a', x');
    AgreeIsEqual(x, x');
  }

  /** Merging never changes which key is described. */
  lemma MergeKeepsIdentity(a: KeyView, b: KeyView)
    ensures PrimaryFingerprint(Merge(a, b).subkeys) == PrimaryFingerprint(a.subkeys)
    ensures |Merge(a, b).subkeys| == |a.subkeys|
    ensures forall i :: 0 <= i < |a.subkeys| ==>
              Merge(a, b).subkeys[i].fpr == a.subkeys[i].fpr && Merge(a, b).subkeys[i].keyid == a.subkeys[i].keyid
  {
  }

  lemma OrAbsorbs(a: Flags, b: Flags)
    ensures Or(Or(a, b), b) == Or(a, b)
  {
    assert (a.keylistMode + b.keylistMode) + b.keylistMode == a.keylistMode + b.keylistMode;
  }

  lemma OrCommutes(a: Flags, b: Flags, c: Flags)
    ensures Or(Or(a, b), c) == Or(Or(a, c), b)
  {
    assert (a.keylistMode + b.keylistMode) + c.keylistMode == (a.keylistMode + c.keylistMode) + b.keylistMode;
  }

  lemma SameKeyKept(a: seq<Subkey>, b: seq<Subkey>, c: seq<Subkey>)
    ensures SameKey(MergeSubkeys(a, b), c) == SameKey(a, c)
  {
  }

  /** Merging the same key again adds nothing, and the order in which two keys are merged into a third
      makes no difference. */
  lemma MergeAbsorbsAndCommutes(a: KeyView, b: KeyView, c: KeyView)
    ensures Merge(Merge(a, b), b) == Merge(a, b)
    ensures Merge(Merge(a, b), c) == Merge(Merge(a, c), b)
  {
    OrAbsorbs(a.flags, b.flags);
    OrCommutes(a.flags, b.flags, c.flags);
    SameKeyKept(a.subkeys, b.subkeys, c.subkeys);
    SameKeyKept(a.subkeys, c.subkeys, b.subkeys);
    SameKeyKept(a.subkeys, b.subkeys, b.subkeys);
    SubkeysAbsorbAndCommute(a.subkeys, b.subkeys, c.subkeys);
  }

  lemma SubkeysAbsorbAndCommute(a: seq<Subkey>, b: seq<Subkey>, c: seq<Subkey>)
    ensures MergeSubkeys(MergeSubkeys(a, b), b) == MergeSubkeys(a, b)
    ensures MergeSubkeys(MergeSubkeys(a, b), c) == MergeSubkeys(MergeSubkeys(a, c), b)
  {
  }

  /** Comparing a fingerprint with the other key's in order reaches the j-th, and one of the two is null. */
  predicate NullAt(fpr: Option<string>, his: seq<Subkey>, j: int) {
    0 <= j < |his| && (fpr.None? || his[j].fpr.None?) && forall l :: 0 <= l < j ==> his[l].fpr != fpr
  }

  /** These comparisons, up to the first equal one, meet a null. */
  predicate MeetsNull(fpr: Option<string>, his: seq<Subkey>) {
    exists j :: 0 <= j < |his| && NullAt(fpr, his, j)
  }

  /** One of the comparisons of the nested loops meets a null. */
  predicate AnyMeetsNull(mine: seq<Subkey>, his: seq<Subkey>) {
    exists i :: 0 <= i < |mine| && MeetsNull(mine[i].fpr, his)
  }

  /** Merging passes a null fingerprint to strcmp. */
  predicate ComparesNull(mine: seq<Subkey>, his: seq<Subkey>) {
    SameKey(mine, his) && AnyMeetsNull(mine, his)
  }

  predicate AllFingerprinted(subkeys: seq<Subkey>) {
    forall i :: 0 <= i < |subkeys| ==> subkeys[i].fpr.Some?
  }

  /** Keys of the same identity are merged without comparing a null exactly if all my subkeys have a
      fingerprint and each of his that has none lies behind a match for each of mine. Keys that
      primaryFingerprint knows only by their key id are never among them. */
  lemma ComparesNullIff(mine: seq<Subkey>, his: seq<Subkey>)
    requires SameKey(mine, his)
    ensures !ComparesNull(mine, his) <==>
              && AllFingerprinted(mine)
              && forall i, j :: 0 <= i < |mine| && 0 <= j < |his| && his[j].fpr.None? ==>
                   exists l :: 0 <= l < j && his[l].fpr == mine[i].fpr
    ensures mine[0].fpr.None? || his[0].fpr.None? ==> ComparesNull(mine, his)
    ensures AllFingerprinted(mine) && AllFingerprinted(his) ==> !ComparesNull(mine, his)
  {
    forall i | 0 <= i < |mine| && mine[i].fpr.None?
      ensures MeetsNull(mine[i].fpr, his)
    {
      assert NullAt(mine[i].fpr, his, 0);
    }
    forall i, j | 0 <= i < |mine| && 0 <= j < |his| && his[j].fpr.None?
                  && forall l :: 0 <= l < j ==> his[l].fpr != mine[i].fpr
      ensures MeetsNull(mine[i].fpr, his)
    {
      assert NullAt(mine[i].fpr, his, j);
    }
  }

  /** Two keys with the same single subkey, known only by its key id. */
  lemma KeyIdOnly(keyid: string)
    ensures var subkeys := [Subkey(None, Some(keyid), false)]; ComparesNull(subkeys, subkeys)
  {
    var subkeys := [Subkey(None, Some(keyid), false)];
    assert subkeys[0].fpr.None?;
    ComparesNullIff(subkeys, subkeys);
  }

  predicate DistinctFingerprints(subkeys: seq<Subkey>) {
    forall i, j :: 0 <= i < j < |subkeys| ==> subkeys[i].fpr != subkeys[j].fpr
  }

  /** The card flag after a merge: mine, or that of the first of his subkeys with my fingerprint; if his
      fingerprints are distinct it is never lost. */
  lemma CardFlags(mine: seq<Subkey>, his: seq<Subkey>, i: nat)
    requires i < |mine|
    ensures var r := MergeSubkeys(mine, his)[i];
            && r.fpr == mine[i].fpr
            && (r.isCardkey <==> mine[i].isCardkey || exists j ::
                  && 0 <= j < |his| && his[j].fpr == mine[i].fpr && his[j].isCardkey
                  && forall l :: 0 <= l < j ==> his[l].fpr != mine[i].fpr)
            && (DistinctFingerprints(his) ==> forall j :: 0 <= j < |his| && his[j].fpr == mine[i].fpr ==>
                  (r.isCardkey <==> mine[i].isCardkey || his[j].isCardkey))
  {
    var k := FirstIndex(his, mine[i].fpr);
    assert k < |his| ==> forall j :: 0 <= j < |his| && his[j].fpr == mine[i].fpr ==> k <= j;
  }

  /** While a key is merged with itself in place, the nodes already updated do not change what the
      remaining ones find: the first node with a fingerprint never changes. */
  lemma PartialSelfMerge(original: seq<Subkey>, current: seq<Subkey>, done: nat, fpr: Option<string>)
    requires |current| == |original|
    requires forall j :: 0 <= j < |original| ==>
               current[j] == if j < done then MergeSubkey(original[j], original) else original[j]
    ensures FirstMatch(current, fpr) == FirstMatch(original, fpr)
  {
    var k := FirstIndex(original, fpr);
    assert forall j :: 0 <= j < |original| ==> current[j].fpr == original[j].fpr;
    assert FirstIndex(current, fpr) == k;
    if k < |original| {
      assert FirstIndex(original, original[k].fpr) == k;
    }
  }

  // ----- on the heap -----

  type SubkeyNode = Node<Subkey>
  type MaybeSubkey = Node?<Subkey>

  /** A gpgme_key_t, possibly shared by several Key objects. */
  class KeyData {
    var flags: Flags
    var subkeys: MaybeSubkey

    constructor (flags: Flags, subkeys: MaybeSubkey)
      ensures this.flags == flags && this.subkeys == subkeys
    {
      this.flags, this.subkeys := flags, subkeys;
    }

    ghost predicate Valid(nodes: seq<SubkeyNode>)
      reads this, nodes
    {
      IsChain(subkeys, nodes)
    }

    ghost function Content(nodes: seq<SubkeyNode>): KeyView
      reads this, nodes
    {
      KeyView(flags, Values(nodes))
    }
  }

  method PrimaryFingerprintOf(key: KeyData?, ghost nodes: seq<SubkeyNode>) returns (r: Option<string>)
    requires key != null ==> key.Valid(nodes)
    ensures r == if key == null then None else PrimaryFingerprint(Values(nodes))
  {
    r := None;
    if key != null && key.subkeys != null {
      assert key.subkeys == nodes[0];
      r := key.subkeys.value.fpr;
      if r.None? {
        r := key.subkeys.value.keyid;
      }
    }
  }

  /** subkeys(). */
  method AllSubkeys(key: KeyData?, ghost nodes: seq<SubkeyNode>) returns (r: seq<Subkey>)
    requires key != null ==> key.Valid(nodes)
    ensures r == if key == null then [] else Values(nodes)
  {
    if key == null {
      return [];
    }
    r := Collect(key.subkeys, nodes, sk => sk);
  }

  /** find_subkey: the counter is tested before it is lowered, so it never wraps. */
  method FindSubkey(key: KeyData?, ghost nodes: seq<SubkeyNode>, idx: nat) returns (r: MaybeSubkey)
    requires key != null ==> key.Valid(nodes)
    ensures r == if key != null && idx < |nodes| then nodes[idx] else null
  {
    if key != null {
      var s := key.subkeys;
      var left: nat := idx;
      ghost var k := 0;
      while s != null
        invariant k + left == idx && k <= |nodes| && s == Successor(nodes, k - 1)
        decreases |nodes| - k
      {
        if left == 0 {
          return s;
        }
        assert s == nodes[k] && s.next == Successor(nodes, k);
        s := s.next;
        left := left - 1;
        k := k + 1;
      }
    }
    r := null;
  }

  /** The inner loop of mergeWith for one of my subkeys; it stops at the first match. A null that would
      be passed to strcmp is reported instead. */
  method MergeSubkeyNode(mysk: SubkeyNode, head: MaybeSubkey, ghost his: seq<SubkeyNode>) returns (metNull: bool)
    requires IsChain(head, his)
    modifies mysk`value
    ensures metNull == old(MeetsNull(mysk.value.fpr, Values(his)))
    ensures !metNull ==> mysk.value == old(MergeSubkey(mysk.value, Values(his)))
  {
    ghost var all := Values(his);
    var hissk := head;
    ghost var k := 0;
    while hissk != null
      invariant k <= |his| && hissk == Successor(his, k - 1)
      invariant forall j :: 0 <= j < k ==> all[j].fpr != mysk.value.fpr && all[j].fpr.Some? && mysk.value.fpr.Some?
      invariant mysk.value == old(mysk.value)
      decreases |his| - k
    {
      assert hissk == his[k] && hissk.value == all[k] && hissk.next == Successor(his, k);
      if mysk.value.fpr.None? || hissk.value.fpr.None? {
        assert NullAt(mysk.value.fpr, all, k);
        return true;
      }
      if mysk.value.fpr.value == hissk.value.fpr.value {
        assert FirstIndex(all, mysk.value.fpr) == k;
        mysk.value := mysk.value.(isCardkey := mysk.value.isCardkey || hissk.value.isCardkey);
        return false;
      }
      hissk := hissk.next;
      k := k + 1;
    }
    assert FirstIndex(all, mysk.value.fpr) == |all|;
    metNull := false;
  }

  /** Two keys either are one shared object or have no subkey node in common. */
  ghost predicate SharedOrApart(me: KeyData, mine: seq<SubkeyNode>, him: KeyData, his: seq<SubkeyNode>) {
    (me == him && mine == his) || (me != him && forall n :: n in mine ==> n !in his)
  }

  lemma SameNulls(a: seq<Subkey>, b: seq<Subkey>, fpr: Option<string>)
    requires |a| == |b| && forall j :: 0 <= j < |a| ==> a[j].fpr == b[j].fpr
    ensures MeetsNull(fpr, a) == MeetsNull(fpr, b)
  {
    assert forall j :: NullAt(fpr, a, j) <==> NullAt(fpr, b, j);
  }

  lemma SameMatch(shared: bool, mine0: seq<Subkey>, mine: seq<Subkey>, his0: seq<Subkey>, his: seq<Subkey>, k: nat)
    requires k < |mine| == |mine0|
    requires forall j :: 0 <= j < |mine0| ==> mine[j] == if j < k then MergeSubkey(mine0[j], his0) else mine0[j]
    requires if shared then mine == his && mine0 == his0 else his == his0
    ensures MergeSubkey(mine0[k], his) == MergeSubkey(mine0[k], his0)
    ensures MeetsNull(mine0[k].fpr, his) == MeetsNull(mine0[k].fpr, his0)
  {
    SameNulls(his, his0, mine0[k].fpr);
    if shared {
      PartialSelfMerge(his0, his, k, mine0[k].fpr);
    }
  }

  /** The state of the nested loops after k of my subkeys: those hold the merge, the others what they
      held at first, and his list, unless it is mine, what it held at first. */
  ghost predicate Progress(shared: bool, mine: seq<SubkeyNode>, mine0: seq<Subkey>, merged: seq<Subkey>,
                           his: seq<SubkeyNode>, his0: seq<Subkey>, k: nat)
    requires |mine| == |mine0| == |merged| && |his| == |his0| && k <= |mine|
    reads mine, his
  {
    && (forall j :: 0 <= j < k ==> mine[j].value == merged[j])
    && (forall j :: k <= j < |mine| ==> mine[j].value == mine0[j])
    && (shared || forall j :: 0 <= j < |his| ==> his[j].value == his0[j])
  }

  lemma ProgressMatch(shared: bool, mine: seq<SubkeyNode>, mine0: seq<Subkey>, merged: seq<Subkey>,
                      his: seq<SubkeyNode>, his0: seq<Subkey>, k: nat)
    requires |mine| == |mine0| == |merged| && |his| == |his0| && k < |mine|
    requires merged == MergeSubkeys(mine0, his0)
    requires Progress(shared, mine, mine0, merged, his, his0, k)
    requires shared ==> mine == his && mine0 == his0
    ensures MergeSubkey(mine[k].value, Values(his)) == merged[k]
    ensures MeetsNull(mine[k].value.fpr, Values(his)) == MeetsNull(mine0[k].fpr, his0)
  {
    SameMatch(shared, mine0, Values(mine), his0, Values(his), k);
  }

  /** The body of the outer loop. */
  method MergeOne(ghost shared: bool, mysk: SubkeyNode, ghost mine: seq<SubkeyNode>, ghost mine0: seq<Subkey>,
                  ghost merged: seq<Subkey>, head: MaybeSubkey, ghost his: seq<SubkeyNode>,
                  ghost his0: seq<Subkey>, ghost k: nat) returns (next: MaybeSubkey, metNull: bool)
    requires |mine| == |mine0| == |merged| && |his| == |his0| && k < |mine| && mysk == mine[k]
    requires IsChain(mine[0], mine) && IsChain(head, his) && merged == MergeSubkeys(mine0, his0)
    requires if shared then mine == his && mine0 == his0 else forall n :: n in mine ==> n !in his
    requires Progress(shared, mine, mine0, merged, his, his0, k)
    modifies mysk`value
    ensures metNull == MeetsNull(mine0[k].fpr, his0)
    ensures IsChain(mine[0], mine) && IsChain(head, his) && next == Successor(mine, k)
    ensures !metNull ==> Progress(shared, mine, mine0, merged, his, his0, k + 1)
  {
    ProgressMatch(shared, mine, mine0, merged, his, his0, k);
    assert mysk in mine && mysk.next == Successor(mine, k);
    metNull := MergeSubkeyNode(mysk, head, his);
    next := mysk.next;
    assert !metNull ==> mysk.value == merged[k];
  }

  /** The nested loops of mergeWith, in place and possibly over one shared list. */
  method MergeCardFlags(me: KeyData, ghost mine: seq<SubkeyNode>, him: KeyData, ghost his: seq<SubkeyNode>)
    returns (metNull: bool)
    requires me.Valid(mine) && him.Valid(his) && SharedOrApart(me, mine, him, his)
    modifies mine`value
    ensures metNull == old(AnyMeetsNull(Values(mine), Values(his)))
    ensures !metNull ==> Values(mine) == old(MergeSubkeys(Values(mine), Values(his)))
  {
    ghost var mine0, his0 := Values(mine), Values(his);
    ghost var merged := MergeSubkeys(mine0, his0);
    ghost var shared := me == him;
    var mysk, head := me.subkeys, him.subkeys;
    ghost var k := 0;
    while mysk != null
      invariant k <= |mine| && mysk == Successor(mine, k - 1)
      invariant IsChain(me.subkeys, mine) && IsChain(head, his)
      invariant Progress(shared, mine, mine0, merged, his, his0, k)
      invariant forall i :: 0 <= i < k ==> !MeetsNull(mine0[i].fpr, his0)
      decreases |mine| - k
    {
      mysk, metNull := MergeOne(shared, mysk, mine, mine0, merged, head, his, his0, k);
      if metNull {
        assert AnyMeetsNull(mine0, his0);
        return;
      }
      k := k + 1;
    }
    assert !AnyMeetsNull(mine0, his0) && Values(mine) == merged;
    metNull := false;
  }

  /** Key::mergeWith: unless a null fingerprint is passed to strcmp, my key becomes the merge; his, if it
      is not the same object, stays as it is. */
  method MergeWith(me: KeyData?, ghost mine: seq<SubkeyNode>, him: KeyData?, ghost his: seq<SubkeyNode>)
    returns (metNull: bool)
    requires me != null ==> me.Valid(mine)
    requires him != null ==> him.Valid(his)
    requires me != null && him != null ==> SharedOrApart(me, mine, him, his)
    modifies if me == null then {} else {me}, mine`value
    ensures metNull <==> me != null && him != null && old(ComparesNull(Values(mine), Values(his)))
    ensures me != null ==> me.Valid(mine)
    ensures me != null && him == null ==> me.Content(mine) == old(me.Content(mine))
    ensures me != null && him != null && !metNull ==>
              me.Content(mine) == Merge(old(me.Content(mine)), old(him.Content(his)))
  {
    var myFpr := PrimaryFingerprintOf(me, mine);
    var hisFpr := PrimaryFingerprintOf(him, his);
    if myFpr.None? || hisFpr.None? || !EqualIgnoringCase(myFpr.value, hisFpr.value) {
      return false;
    }
    assert SameKey(Values(mine), Values(his));
    me.flags := Or(me.flags, him.flags);
    metNull := MergeCardFlags(me, mine, him, his);
  }
}
