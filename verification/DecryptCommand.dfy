/** The decrypt command on a real backup: whoever holds a key gets the documents, however threads interleave. */
module DecryptCommand {
  import opened Prelude
  import opened Payload
  import opened Container
  import opened Secrets
  import opened Backup
  import opened Descriptors
  import opened Documents
  import B = Builders
  import opened BuilderProofs
  import C = ConcurrentDecrypt
  import D = ConcurrentDecryptProofs
  import O = ConcurrentDecryptOutcomes
  import opened Collector
  import CanonicalContainer

  /** What the decrypt thread makes of one key. */
  function VerdictOf(crypto: Crypto, formats: Formats, backup: B.State, key: PublicKey): C.Verdict {
    match B.DecryptState(crypto, formats, NoVendor, B.WithKeys(backup, [key]))
    case Done(items) => C.Opens(items)
    case Failed(f) => if f.NoMatchingKey? || f.NoKey? then C.Wrong else C.Breaks(f)
  }

  /** What the device's answers to a plan mean to the fetch thread. */
  function StepsOf(plan: seq<Fetch>, answers: nat -> Answer<PublicKey>): (r: seq<C.FetchStep>)
    ensures |r| == |plan|
  {
    seq(|plan|, i requires 0 <= i < |plan| =>
      match answers(i)
      case Xpub(key) => C.Found(key)
      case _ => if plan[i].onFailure.MustFetch? then C.Fatal else C.Missing)
  }

  function CommandScenario(
    crypto: Crypto, formats: Formats, backup: B.State, given: Option<PublicKey>, unlocks: bool,
    plan: seq<Fetch>, answers: nat -> Answer<PublicKey>): C.Scenario
  {
    C.Scenario(given, unlocks, StepsOf(plan, answers), (key: PublicKey) => VerdictOf(crypto, formats, backup, key))
  }

  lemma {:induction false} OneDecides(c: C.Scenario, keys: seq<PublicKey>, items: C.Items, key: PublicKey)
    requires forall k :: k in keys ==> c.verdict(k) == C.Opens(items) || c.verdict(k) == C.Wrong
    requires key in keys && c.verdict(key) == C.Opens(items)
    ensures C.Decisive(c, keys) == Some(C.Document(items))
  {
    assert keys == [keys[0]] + keys[1..];
    if c.verdict(keys[0]).Wrong? {
      OneDecides(c, keys[1..], items, key);
    }
  }

  lemma KeyVerdict(
    crypto: Crypto, formats: Formats, entropy: B.Entropy, t: B.State, docs: seq<Document>, key: PublicKey)
    requires AeadInverts(crypto) && B.EncryptState(crypto, entropy, t).Done?
    requires t.payload == B.EncryptMany(ItemsOf(formats, docs))
    requires forall i :: 0 <= i < |docs| ==> Readable(formats, docs[i])
    requires SoundLevel(crypto, Done(t), B.EncryptState(crypto, entropy, t).value.bytes, key)
    ensures var b := B.EncryptState(crypto, entropy, t).value.bytes;
            && B.WithEncrypted(B.NEW, b).Done?
            && var v := VerdictOf(crypto, formats, B.WithEncrypted(B.NEW, b).value, key);
               || v == C.Opens(ReadBackAll(docs))
               || (v == C.Wrong && (key !in t.pool.keys || Xonly(key) == NUMS_XONLY))
  {
    hide B.EncryptItems, DecodeV1, DecodeVersion, NormalItems, NoFalseOpening, SharedSecret, ExtractAll, Xonly,
         Readable, ItemsOf, ReadBackAll, DecryptV1;
    var items := ItemsOf(formats, docs);
    var b := B.EncryptState(crypto, entropy, t).value.bytes;
    ItemsOpen(crypto, entropy, t, items, key);
    CanonicalContainer.PartialDecoders(b);
    var r := B.WithEncrypted(B.NEW, b).value;
    NothingToDrop(r.pool, [key]);
    DocumentsComeBack(formats, NoVendor, docs);
    OneKeyOpening(crypto, key, r.payload);
  }

  lemma OneKeyOpening(crypto: Crypto, key: PublicKey, p: B.Payloads)
    requires p.ToDecrypt?
    ensures B.FirstOpening(crypto, [key], p) ==
            match DecryptV1(crypto, Xonly(key), p.secrets, p.ciphertext, p.nonce)
            case Ok(items) => Some(items)
            case Err(_) => None
  {
    hide DecryptV1, Xonly;
    assert [key][1..] == [];
  }

  // ----- which keys reach the queue

  /** Given by hand, or answered by the device at some fetch. */
  ghost predicate Answered(
    given: Option<PublicKey>, plan: seq<Fetch>, answers: nat -> Answer<PublicKey>, key: PublicKey)
  {
    given == Some(key) || exists i :: 0 <= i < |plan| && answers(i) == Xpub(key)
  }

  // The fetches before `n` gave a key or were allowed not to.
  ghost predicate FineBefore(plan: seq<Fetch>, answers: nat -> Answer<PublicKey>, n: nat) {
    forall j :: 0 <= j < n && j < |plan| && plan[j].onFailure.MustFetch? ==> answers(j).Xpub?
  }

  /** The device unlocks and gives every key it must. */
  ghost predicate NeverFails(unlocks: bool, plan: seq<Fetch>, answers: nat -> Answer<PublicKey>) {
    unlocks && FineBefore(plan, answers, |plan|)
  }

  /** The same, before any failure that ends the fetching. */
  ghost predicate AnsweredInTime(
    given: Option<PublicKey>, unlocks: bool, plan: seq<Fetch>, answers: nat -> Answer<PublicKey>, key: PublicKey)
  {
    || given == Some(key)
    || (unlocks && exists i :: 0 <= i < |plan| && answers(i) == Xpub(key) && FineBefore(plan, answers, i))
  }

  lemma {:induction false} FoundKeysAre(fetches: seq<C.FetchStep>, key: PublicKey)
    ensures key in C.FoundKeys(fetches) <==>
            exists i :: 0 <= i < |fetches| && fetches[i] == C.Found(key) && D.NoFatalBefore(fetches, i)
  {
    if fetches != [] {
      var rest := fetches[1..];
      FoundKeysAre(rest, key);
      if i :| 0 <= i < |fetches| && fetches[i] == C.Found(key) && D.NoFatalBefore(fetches, i) {
        if i > 0 {
          assert rest[i - 1] == C.Found(key) && D.NoFatalBefore(rest, i - 1);
          assert !fetches[0].Fatal?;
        }
      }
      if i :| 0 <= i < |rest| && rest[i] == C.Found(key) && D.NoFatalBefore(rest, i) {
        if !fetches[0].Fatal? {
          assert fetches[i + 1] == C.Found(key) && D.NoFatalBefore(fetches, i + 1);
        }
      }
    }
  }

  lemma StepIs(plan: seq<Fetch>, answers: nat -> Answer<PublicKey>, i: nat)
    requires i < |plan|
    ensures forall key :: StepsOf(plan, answers)[i] == C.Found(key) <==> answers(i) == Xpub(key)
    ensures StepsOf(plan, answers)[i].Fatal? <==> plan[i].onFailure.MustFetch? && !answers(i).Xpub?
  {
  }

  lemma FineIs(plan: seq<Fetch>, answers: nat -> Answer<PublicKey>, n: nat)
    requires n <= |plan|
    ensures FineBefore(plan, answers, n) <==> D.NoFatalBefore(StepsOf(plan, answers), n)
  {
    hide StepsOf;
    forall i | 0 <= i < n
      ensures StepsOf(plan, answers)[i].Fatal? <==> plan[i].onFailure.MustFetch? && !answers(i).Xpub?
    {
      StepIs(plan, answers, i);
    }
  }

  lemma KeysReached(c: C.Scenario, plan: seq<Fetch>, answers: nat -> Answer<PublicKey>, key: PublicKey)
    requires c.fetches == StepsOf(plan, answers)
    ensures key in C.AllKeys(c) <==> AnsweredInTime(c.given, c.unlocks, plan, answers, key)
    ensures C.Clean(c) <==> NeverFails(c.unlocks, plan, answers)
  {
    hide StepsOf, C.FoundKeys, D.NoFatalBefore, FineBefore;
    FoundKeysAre(c.fetches, key);
    forall i | 0 <= i < |plan|
      ensures c.fetches[i] == C.Found(key) <==> answers(i) == Xpub(key)
      ensures D.NoFatalBefore(c.fetches, i) <==> FineBefore(plan, answers, i)
    {
      StepIs(plan, answers, i);
      FineIs(plan, answers, i);
    }
    FineIs(plan, answers, |plan|);
    NoFatalAtAll(c.fetches);
  }

  lemma NoFatalAtAll(fetches: seq<C.FetchStep>)
    ensures C.Fatal !in fetches <==> D.NoFatalBefore(fetches, |fetches|)
  {
  }

  // ----- what the command returns

  /** A backup of readable documents that no answered key opens under a wrong secret. */
  ghost predicate SoundBackup(
    crypto: Crypto, formats: Formats, entropy: B.Entropy, t: B.State, docs: seq<Document>,
    given: Option<PublicKey>, plan: seq<Fetch>, answers: nat -> Answer<PublicKey>)
  {
    && AeadInverts(crypto) && B.EncryptState(crypto, entropy, t).Done?
    && t.payload == B.EncryptMany(ItemsOf(formats, docs))
    && (forall i :: 0 <= i < |docs| ==> Readable(formats, docs[i]))
    && forall key :: Answered(given, plan, answers, key) ==>
         SoundLevel(crypto, Done(t), B.EncryptState(crypto, entropy, t).value.bytes, key)
  }

  lemma Verdicts(
    crypto: Crypto, formats: Formats, entropy: B.Entropy, t: B.State, docs: seq<Document>,
    given: Option<PublicKey>, plan: seq<Fetch>, answers: nat -> Answer<PublicKey>, key: PublicKey)
    requires SoundBackup(crypto, formats, entropy, t, docs, given, plan, answers)
    requires Answered(given, plan, answers, key)
    ensures var b := B.EncryptState(crypto, entropy, t).value.bytes;
            && B.WithEncrypted(B.NEW, b).Done?
            && var v := VerdictOf(crypto, formats, B.WithEncrypted(B.NEW, b).value, key);
               || v == C.Opens(ReadBackAll(docs))
               || (v == C.Wrong && (key !in t.pool.keys || Xonly(key) == NUMS_XONLY))
  {
    hide B.EncryptState, B.WithEncrypted, SoundLevel, Xonly, Readable, ItemsOf, ReadBackAll, VerdictOf, Answered;
    KeyVerdict(crypto, formats, entropy, t, docs, key);
  }

  lemma InTimeIsAnswered(
    given: Option<PublicKey>, unlocks: bool, plan: seq<Fetch>, answers: nat -> Answer<PublicKey>, key: PublicKey)
    requires AnsweredInTime(given, unlocks, plan, answers, key)
    ensures Answered(given, plan, answers, key)
  {
    hide FineBefore;
  }

  lemma AnsweredIsInTime(
    given: Option<PublicKey>, unlocks: bool, plan: seq<Fetch>, answers: nat -> Answer<PublicKey>, key: PublicKey)
    requires NeverFails(unlocks, plan, answers) && Answered(given, plan, answers, key)
    ensures AnsweredInTime(given, unlocks, plan, answers, key)
  {
    if i :| 0 <= i < |plan| && answers(i) == Xpub(key) {
      assert FineBefore(plan, answers, i);
    }
  }

  /** With a recipient's key answered in time, what the keys decide is the documents. */
  lemma HolderDecides(
    crypto: Crypto, formats: Formats, entropy: B.Entropy, t: B.State, docs: seq<Document>,
    given: Option<PublicKey>, unlocks: bool, plan: seq<Fetch>, answers: nat -> Answer<PublicKey>, key: PublicKey)
    requires SoundBackup(crypto, formats, entropy, t, docs, given, plan, answers)
    requires AnsweredInTime(given, unlocks, plan, answers, key) && key in t.pool.keys && Xonly(key) != NUMS_XONLY
    ensures var b := B.EncryptState(crypto, entropy, t).value.bytes;
            && B.WithEncrypted(B.NEW, b).Done?
            && var c :=
                 CommandScenario(crypto, formats, B.WithEncrypted(B.NEW, b).value, given, unlocks, plan, answers);
               && C.Decisive(c, C.AllKeys(c)) == Some(C.Document(ReadBackAll(docs)))
               && (C.Clean(c) <==> NeverFails(unlocks, plan, answers))
  {
    hide SoundLevel, Readable, AeadInverts, ItemsOf, B.EncryptState, B.WithEncrypted, Xonly, ReadBackAll, VerdictOf,
         C.AllKeys, C.Clean, C.Decisive, StepsOf, Answered, AnsweredInTime, NeverFails;
    InTimeIsAnswered(given, unlocks, plan, answers, key);
    Verdicts(crypto, formats, entropy, t, docs, given, plan, answers, key);
    var b := B.EncryptState(crypto, entropy, t).value.bytes;
    var c := CommandScenario(crypto, formats, B.WithEncrypted(B.NEW, b).value, given, unlocks, plan, answers);
    KeysReached(c, plan, answers, key);
    forall k | k in C.AllKeys(c)
      ensures c.verdict(k) == C.Opens(ReadBackAll(docs)) || c.verdict(k) == C.Wrong
    {
      KeysReached(c, plan, answers, k);
      InTimeIsAnswered(given, unlocks, plan, answers, k);
      Verdicts(crypto, formats, entropy, t, docs, given, plan, answers, k);
    }
    OneDecides(c, C.AllKeys(c), ReadBackAll(docs), key);
  }

  /**
   A backup of readable documents, a device that never fails, and a recipient's key given
   by hand or answered at any fetch: every interleaving ends with exactly the documents.
   */
  lemma HolderGetsDocuments(
    crypto: Crypto, formats: Formats, entropy: B.Entropy, t: B.State, docs: seq<Document>,
    given: Option<PublicKey>, unlocks: bool, plan: seq<Fetch>, answers: nat -> Answer<PublicKey>, key: PublicKey,
    schedule: seq<C.Thread>)
    requires SoundBackup(crypto, formats, entropy, t, docs, given, plan, answers)
    requires NeverFails(unlocks, plan, answers)
    requires Answered(given, plan, answers, key) && key in t.pool.keys && Xonly(key) != NUMS_XONLY
    ensures var b := B.EncryptState(crypto, entropy, t).value.bytes;
            && B.WithEncrypted(B.NEW, b).Done?
            && var c :=
                 CommandScenario(crypto, formats, B.WithEncrypted(B.NEW, b).value, given, unlocks, plan, answers);
               C.Run(c, schedule).m.Returned? ==>
                 C.Run(c, schedule).m.result == Some(C.Document(ReadBackAll(docs)))
  {
    hide SoundLevel, Readable, AeadInverts, ItemsOf, B.EncryptState, B.WithEncrypted, Xonly, ReadBackAll, VerdictOf,
         C.AllKeys, C.Clean, C.Decisive, C.Run, StepsOf, Answered, AnsweredInTime, NeverFails;
    AnsweredIsInTime(given, unlocks, plan, answers, key);
    HolderDecides(crypto, formats, entropy, t, docs, given, unlocks, plan, answers, key);
    var b := B.EncryptState(crypto, entropy, t).value.bytes;
    var c := CommandScenario(crypto, formats, B.WithEncrypted(B.NEW, b).value, given, unlocks, plan, answers);
    if C.Run(c, schedule).m.Returned? {
      D.SameAsSequential(c, schedule);
    }
  }

  /**
   With a device that fails after answering that key, or at any time when the key was
   given by hand: the result is the documents or the device's failure, and either can come.
   */
  lemma HolderAndFailingDevice(
    crypto: Crypto, formats: Formats, entropy: B.Entropy, t: B.State, docs: seq<Document>,
    given: Option<PublicKey>, unlocks: bool, plan: seq<Fetch>, answers: nat -> Answer<PublicKey>, key: PublicKey,
    message: C.Message)
    requires SoundBackup(crypto, formats, entropy, t, docs, given, plan, answers)
    requires !NeverFails(unlocks, plan, answers)
    requires AnsweredInTime(given, unlocks, plan, answers, key) && key in t.pool.keys && Xonly(key) != NUMS_XONLY
    ensures var b := B.EncryptState(crypto, entropy, t).value.bytes;
            && B.WithEncrypted(B.NEW, b).Done?
            && var c :=
                 CommandScenario(crypto, formats, B.WithEncrypted(B.NEW, b).value, given, unlocks, plan, answers);
               O.CanReturn(c, message) <==> message == C.Document(ReadBackAll(docs)) || message == C.FailedToFetch
  {
    hide SoundLevel, Readable, AeadInverts, ItemsOf, B.EncryptState, B.WithEncrypted, Xonly, ReadBackAll, VerdictOf,
         C.AllKeys, C.Clean, C.Decisive, C.Run, StepsOf, AnsweredInTime, NeverFails, O.CanReturn;
    HolderDecides(crypto, formats, entropy, t, docs, given, unlocks, plan, answers, key);
    var b := B.EncryptState(crypto, entropy, t).value.bytes;
    var c := CommandScenario(crypto, formats, B.WithEncrypted(B.NEW, b).value, given, unlocks, plan, answers);
    O.OutcomesAre(c, message);
  }

  /** Without a recipient's key: every interleaving says that the keys were wrong, or that there was none. */
  lemma StrangersGetNothing(
    crypto: Crypto, formats: Formats, entropy: B.Entropy, t: B.State, docs: seq<Document>,
    given: Option<PublicKey>, unlocks: bool, plan: seq<Fetch>, answers: nat -> Answer<PublicKey>,
    schedule: seq<C.Thread>)
    requires SoundBackup(crypto, formats, entropy, t, docs, given, plan, answers)
    requires NeverFails(unlocks, plan, answers)
    requires B.WithEncrypted(B.NEW, B.EncryptState(crypto, entropy, t).value.bytes).Done?
    requires var backup := B.WithEncrypted(B.NEW, B.EncryptState(crypto, entropy, t).value.bytes).value;
             forall key :: Answered(given, plan, answers, key) ==>
               VerdictOf(crypto, formats, backup, key) != C.Opens(ReadBackAll(docs))
    ensures var backup := B.WithEncrypted(B.NEW, B.EncryptState(crypto, entropy, t).value.bytes).value;
            var c := CommandScenario(crypto, formats, backup, given, unlocks, plan, answers);
            C.Run(c, schedule).m.Returned? ==>
              C.Run(c, schedule).m.result ==
              Some(if exists key :: Answered(given, plan, answers, key) then C.FailedToDecrypt(NoMatchingKey)
                   else C.NoKeys)
  {
    hide SoundLevel, Readable, AeadInverts, ItemsOf, B.EncryptState, B.WithEncrypted, ReadBackAll, VerdictOf,
         C.AllKeys, C.Clean, C.Run, StepsOf, Answered, AnsweredInTime, NeverFails;
    var b := B.EncryptState(crypto, entropy, t).value.bytes;
    var c := CommandScenario(crypto, formats, B.WithEncrypted(B.NEW, b).value, given, unlocks, plan, answers);
    forall k ensures k in C.AllKeys(c) <==> Answered(given, plan, answers, k) {
      KeysReached(c, plan, answers, k);
      if Answered(given, plan, answers, k) {
        AnsweredIsInTime(given, unlocks, plan, answers, k);
      }
      if k in C.AllKeys(c) {
        InTimeIsAnswered(given, unlocks, plan, answers, k);
      }
    }
    forall k | k in C.AllKeys(c) ensures c.verdict(k) == C.Wrong {
      Verdicts(crypto, formats, entropy, t, docs, given, plan, answers, k);
    }
    CleanIs(c, plan, answers);
    if C.AllKeys(c) != [] {
      assert Answered(given, plan, answers, C.AllKeys(c)[0]);
    }
    if C.Run(c, schedule).m.Returned? {
      O.NothingDecisive(c, schedule);
    }
  }

  lemma CleanIs(c: C.Scenario, plan: seq<Fetch>, answers: nat -> Answer<PublicKey>)
    requires c.fetches == StepsOf(plan, answers)
    ensures C.Clean(c) <==> NeverFails(c.unlocks, plan, answers)
  {
    hide StepsOf, C.FoundKeys, D.NoFatalBefore, FineBefore;
    FineIs(plan, answers, |plan|);
    NoFatalAtAll(c.fetches);
  }
}
