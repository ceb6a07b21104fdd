/** Safety over every interleaving, and progress, of the decrypt command. */
module ConcurrentDecryptProofs {
  import opened Prelude
  import opened Descriptors
  import opened Documents
  import opened ConcurrentDecrypt

  // ----- facts about keys

  predicate AllWrong(c: Scenario, keys: seq<PublicKey>) {
    forall k :: k in keys ==> c.verdict(k).Wrong?
  }

  lemma {:induction false} DecisiveNone(c: Scenario, keys: seq<PublicKey>)
    ensures Decisive(c, keys) == None <==> AllWrong(c, keys)
  {
    if keys != [] {
      assert keys == [keys[0]] + keys[1..];
      DecisiveNone(c, keys[1..]);
    }
  }

  /** Keys before the decisive one do not count, nor do those after it. */
  lemma {:induction false} DecisiveAfter(c: Scenario, before: seq<PublicKey>, key: PublicKey, after: seq<PublicKey>)
    requires AllWrong(c, before) && !c.verdict(key).Wrong?
    ensures Decisive(c, before + [key] + after) == Decisive(c, [key])
  {
    var all := before + [key] + after;
    if before == [] {
      assert all[0] == key;
    } else {
      assert all[0] == before[0] && all[1..] == before[1..] + [key] + after;
      assert before[0] in before && forall k :: k in before[1..] ==> k in before;
      DecisiveAfter(c, before[1..], key, after);
    }
  }

  /** Keys of the fetches before `i`. */
  function FoundBefore(fetches: seq<FetchStep>, i: nat): seq<PublicKey>
    requires i <= |fetches|
  {
    if i == 0 then []
    else FoundBefore(fetches, i - 1) + match fetches[i - 1] case Found(key) => [key] case _ => []
  }

  predicate NoFatalBefore(fetches: seq<FetchStep>, i: nat)
    requires i <= |fetches|
  {
    forall j :: 0 <= j < i ==> !fetches[j].Fatal?
  }

  lemma {:induction false} FoundSplits(fetches: seq<FetchStep>, i: nat)
    requires i <= |fetches| && NoFatalBefore(fetches, i)
    ensures FoundKeys(fetches) == FoundBefore(fetches, i) + FoundKeys(fetches[i..])
  {
    if i == 0 {
      assert fetches[0..] == fetches;
    } else {
      FoundSplits(fetches, i - 1);
      assert fetches[i - 1..][1..] == fetches[i..] && fetches[i - 1..][0] == fetches[i - 1];
      assert !fetches[i - 1].Fatal?;
    }
  }

  // ----- who may still speak

  predicate Loops(f: Fetcher) {
    f.Looping? || f.Fetching? || f.Offering? || f.GivingUp?
  }

  /** Whenever the flag is up, someone has spoken or is about to. */
  ghost predicate StopExplained(s: State) {
    s.stop ==> s.d.Sending? || s.f.Reporting? || s.inbox != []
  }

  /** Each thread speaks at most once, and only at its end; main takes the first message. */
  ghost predicate Mailbox(s: State) {
    && |s.byDecrypter| <= 1 && |s.byFetcher| <= 1
    && (!s.d.Exited? ==> s.byDecrypter == [])
    && (!s.f.Gone? ==> s.byFetcher == [])
    && (s.inbox == s.byDecrypter + s.byFetcher || s.inbox == s.byFetcher + s.byDecrypter)
    && (s.m.Finishing? || s.m.Returned? ==> s.inbox != [] && s.m.result == Some(s.inbox[0]))
  }

  /** Where the threads can stand together. */
  ghost predicate Control(s: State) {
    && !s.m.GivingFailed?
    && (s.f.Unborn? <==> s.m.Giving? || s.m.Spawning?)
    && (s.m.Giving? ==> s.d.Receiving? && s.queue == [] && s.pushed == [])
    && (s.d.Sending? || s.f.Reporting? || s.f.GivingUp? ==> s.stop)
    && (s.f.GivingUp? ==> !ReceiverAlive(s))
    && (s.d.Ending? ==> s.stop || KeysClosed(s))
    && (s.d.Concluding? ==> KeysClosed(s))
    && (s.d.Exited? ==> s.stop || (s.byDecrypter != [] && KeysClosed(s)))
  }

  ghost predicate Quiet(s: State) {
    StopExplained(s) && Mailbox(s) && Control(s)
  }

  // A step that posts nothing leaves the mailbox as it was.
  lemma SameMailbox(s: State, r: State)
    requires Mailbox(s)
    requires r.inbox == s.inbox && r.byDecrypter == s.byDecrypter && r.byFetcher == s.byFetcher
    requires (s.d.Exited? ==> r.d.Exited?) && (s.f.Gone? ==> r.f.Gone?)
    requires r.m == s.m || (r.m.Finishing? || r.m.Returned? ==> r.inbox != [] && r.m.result == Some(r.inbox[0]))
    ensures Mailbox(r)
  {
  }

  lemma DecryptKeepsExplained(c: Scenario, s: State)
    requires Quiet(s) && DecryptStep(c, s).Some?
    ensures StopExplained(DecryptStep(c, s).value)
  {
    hide Decisive;
  }

  lemma DecryptKeepsMailbox(c: Scenario, s: State)
    requires Mailbox(s) && DecryptStep(c, s).Some?
    ensures Mailbox(DecryptStep(c, s).value)
  {
    hide ReceiverAlive, KeysClosed;
    if s.d.Sending? || s.d.Concluding? {
      DecryptPosts(s, s.d.message);
    } else {
      SameMailbox(s, DecryptStep(c, s).value);
    }
  }

  lemma DecryptPosts(s: State, message: Message)
    requires Mailbox(s) && !s.d.Exited?
    ensures Mailbox(Send(s, message))
  {
    assert s.byDecrypter == [] && s.inbox == s.byFetcher;
    assert [] + [message] == [message] && s.byFetcher + [] == s.byFetcher;
  }

  lemma DecryptKeepsControl(c: Scenario, s: State)
    requires Control(s) && DecryptStep(c, s).Some?
    ensures Control(DecryptStep(c, s).value)
  {
  }

  lemma FetchKeepsExplained(c: Scenario, s: State)
    requires Quiet(s) && FetchStepOf(c, s).Some?
    ensures StopExplained(FetchStepOf(c, s).value)
  {
    hide Decisive;
  }

  lemma FetchKeepsMailbox(c: Scenario, s: State)
    requires Mailbox(s) && FetchStepOf(c, s).Some?
    ensures Mailbox(FetchStepOf(c, s).value)
  {
    hide Mailbox, ReceiverAlive;
    if s.f.Reporting? {
      FetchPosts(s);
    } else {
      SameMailbox(s, FetchStepOf(c, s).value);
    }
  }

  lemma FetchPosts(s: State)
    requires Mailbox(s) && !s.f.Gone?
    ensures Mailbox(s.(inbox := s.inbox + [FailedToFetch], byFetcher := s.byFetcher + [FailedToFetch], f := Gone))
  {
    assert s.byFetcher == [] && s.inbox == s.byDecrypter;
    assert [] + [FailedToFetch] == [FailedToFetch] && s.byDecrypter + [] == s.byDecrypter;
  }

  lemma FetchKeepsControl(c: Scenario, s: State)
    requires Control(s) && FetchStepOf(c, s).Some?
    ensures Control(FetchStepOf(c, s).value)
  {
  }

  lemma MainKeepsExplained(c: Scenario, s: State)
    requires Quiet(s) && MainStep(c, s).Some?
    ensures StopExplained(MainStep(c, s).value)
  {
    hide Decisive;
  }

  /** Once both threads have finished, at least one of them has spoken. */
  lemma FinishedHaveSpoken(s: State)
    requires Quiet(s) && s.d.Exited? && s.f.Gone?
    ensures s.inbox != []
  {
  }

  lemma MainKeepsMailbox(c: Scenario, s: State)
    requires Mailbox(s) && Control(s) && (s.d.Exited? && s.f.Gone? ==> s.inbox != []) && MainStep(c, s).Some?
    ensures Mailbox(MainStep(c, s).value)
  {
    SameMailbox(s, MainStep(c, s).value);
  }

  lemma MainKeepsControl(c: Scenario, s: State)
    requires Control(s) && MainStep(c, s).Some?
    ensures Control(MainStep(c, s).value)
  {
  }

  // ----- what they say

  /** The keys the fetcher has offered so far, and how it can have ended. */
  ghost predicate Fetched(c: Scenario, s: State) {
    && (Loops(s.f) ==> c.unlocks && s.f.i <= |c.fetches| && NoFatalBefore(c.fetches, s.f.i))
    && (s.f.Fetching? || s.f.Offering? || s.f.GivingUp? ==> s.f.i < |c.fetches|)
    && (s.f.Offering? ==> c.fetches[s.f.i] == Found(s.f.key))
    && (s.f.GivingUp? ==> c.fetches[s.f.i].Found?)
    && (s.f.Failing? || s.f.Reporting? || s.byFetcher != [] ==> !Clean(c))
    && (s.f.Gone? && !s.stop ==> Clean(c))
    && s.pushed <= AllKeys(c)
    && (ReceiverAlive(s) ==>
          && (s.m.Giving? ==> s.pushed == [])
          && (s.m.Spawning? || s.f.Starting? || s.f.Unlocking? ==> s.pushed == GivenKeys(c))
          && (Loops(s.f) ==> s.pushed == GivenKeys(c) + FoundBefore(c.fetches, s.f.i))
          && (s.f.Gone? && !s.stop ==> s.pushed == AllKeys(c)))
  }

  /** The decrypter's message is the decisive one, or the closing one when none is. */
  ghost predicate Truthful(c: Scenario, message: Message) {
    message == Expected(c) && (Decisive(c, AllKeys(c)) == None ==> Clean(c))
  }

  ghost predicate Tried(c: Scenario, s: State) {
    && s.taken + s.queue == s.pushed
    && (match s.d
        case Receiving => AllWrong(c, s.taken) && (s.saw <==> s.taken != [])
        case Checking(key) =>
          s.taken != [] && s.taken[|s.taken| - 1] == key && AllWrong(c, s.taken[..|s.taken| - 1])
          && (s.saw <==> |s.taken| > 1)
        case Decrypting(key) =>
          s.taken != [] && s.taken[|s.taken| - 1] == key && AllWrong(c, s.taken[..|s.taken| - 1]) && s.saw
        case Stopping(message) => Decisive(c, AllKeys(c)) == Some(message)
        case Sending(message) => Decisive(c, AllKeys(c)) == Some(message)
        case Ending =>
          s.stop || (s.taken == AllKeys(c) && AllWrong(c, s.taken) && (s.saw <==> s.taken != []) && Clean(c))
        case Concluding(message) => Truthful(c, message)
        case Exited => true)
    && (forall message :: message in s.byDecrypter ==> Truthful(c, message))
    && (forall message :: message in s.byFetcher ==> message == FailedToFetch)
  }

  ghost predicate Invariant(c: Scenario, s: State) {
    Quiet(s) && Fetched(c, s) && Tried(c, s)
  }

  // What each thread's step leaves true of the fetches.

  // A step that moves neither fetcher nor offered keys leaves that untouched.
  lemma SameFetched(c: Scenario, s: State, r: State)
    requires Fetched(c, s)
    requires r.f == s.f && r.pushed == s.pushed && r.byFetcher == s.byFetcher
    requires r.m == s.m || (!r.m.Giving? && !r.m.Spawning?)
    requires (s.stop ==> r.stop) && (ReceiverAlive(r) ==> ReceiverAlive(s))
    ensures Fetched(c, r)
  {
    hide AllKeys, GivenKeys, FoundBefore, NoFatalBefore, Clean, ReceiverAlive;
  }

  lemma DecryptKeepsFetched(c: Scenario, s: State)
    requires Fetched(c, s) && DecryptStep(c, s).Some?
    ensures Fetched(c, DecryptStep(c, s).value)
  {
    hide Fetched;
    SameFetched(c, s, DecryptStep(c, s).value);
  }

  lemma GivenFirst(c: Scenario)
    ensures GivenKeys(c) <= AllKeys(c) && |GivenKeys(c)| <= 1
    ensures c.given.Some? ==> GivenKeys(c) == [c.given.value]
    ensures c.given.None? ==> GivenKeys(c) == []
  {
  }

  lemma MainKeepsFetched(c: Scenario, s: State)
    requires Control(s) && Fetched(c, s) && MainStep(c, s).Some?
    ensures Fetched(c, MainStep(c, s).value)
  {
    hide Control, Fetched, MainStep;
    if s.m.Giving? {
      GivingKeepsFetched(c, s);
    } else if s.m.Spawning? {
      SpawningKeepsFetched(c, s);
    } else {
      WaitingKeepsFetched(c, s);
    }
  }

  lemma GivingKeepsFetched(c: Scenario, s: State)
    requires Control(s) && Fetched(c, s) && s.m.Giving?
    ensures MainStep(c, s).Some? && Fetched(c, MainStep(c, s).value)
  {
    hide AllKeys, GivenKeys, FoundBefore, NoFatalBefore, FoundKeys, Clean;
    GivenFirst(c);
  }

  lemma SpawningKeepsFetched(c: Scenario, s: State)
    requires Control(s) && Fetched(c, s) && s.m.Spawning?
    ensures MainStep(c, s).Some? && Fetched(c, MainStep(c, s).value)
  {
    hide AllKeys, GivenKeys, FoundBefore, NoFatalBefore, FoundKeys, Clean;
  }

  lemma WaitingKeepsFetched(c: Scenario, s: State)
    requires Control(s) && Fetched(c, s) && MainStep(c, s).Some? && !s.m.Giving? && !s.m.Spawning?
    ensures Fetched(c, MainStep(c, s).value)
  {
    hide Fetched;
    SameFetched(c, s, MainStep(c, s).value);
  }

  lemma FoundAll(c: Scenario, i: nat)
    requires c.unlocks && i <= |c.fetches| && NoFatalBefore(c.fetches, i)
    ensures GivenKeys(c) + FoundBefore(c.fetches, i) <= AllKeys(c)
    ensures i == |c.fetches| ==> Clean(c) && GivenKeys(c) + FoundBefore(c.fetches, i) == AllKeys(c)
  {
    hide GivenKeys;
    FoundSplits(c.fetches, i);
  }

  lemma FetchEndsKeepFetched(c: Scenario, s: State)
    requires Control(s) && Fetched(c, s) && FetchStepOf(c, s).Some?
    requires !s.f.Offering? && !s.f.GivingUp? && !s.f.Fetching?
    ensures Fetched(c, FetchStepOf(c, s).value)
  {
    hide AllKeys, GivenKeys, FoundKeys, FoundBefore, NoFatalBefore, Clean;
    match s.f
    case Unlocking => BeforeFirst(c);
    case Looping(i) => FoundAll(c, i);
    case _ =>
  }

  lemma BeforeFirst(c: Scenario)
    ensures FoundBefore(c.fetches, 0) == [] && NoFatalBefore(c.fetches, 0)
    ensures !c.unlocks ==> !Clean(c)
  {
  }

  lemma NextFetch(c: Scenario, i: nat)
    requires i < |c.fetches| && NoFatalBefore(c.fetches, i)
    ensures c.fetches[i].Fatal? ==> !Clean(c)
    ensures !c.fetches[i].Fatal? ==> NoFatalBefore(c.fetches, i + 1)
    ensures FoundBefore(c.fetches, i + 1) ==
            FoundBefore(c.fetches, i) + match c.fetches[i] case Found(key) => [key] case _ => []
  {
  }

  lemma FetchingKeepsFetched(c: Scenario, s: State)
    requires Control(s) && Fetched(c, s) && s.f.Fetching?
    ensures FetchStepOf(c, s).Some? && Fetched(c, FetchStepOf(c, s).value)
  {
    hide AllKeys, GivenKeys, FoundKeys, FoundBefore, NoFatalBefore, Clean;
    NextFetch(c, s.f.i);
  }

  lemma OfferingKeepsFetched(c: Scenario, s: State)
    requires Control(s) && Fetched(c, s) && (s.f.Offering? || s.f.GivingUp?)
    ensures FetchStepOf(c, s).Some? && Fetched(c, FetchStepOf(c, s).value)
  {
    hide AllKeys, GivenKeys, FoundKeys, FoundBefore, NoFatalBefore, Clean;
    NextFetch(c, s.f.i);
    FoundAll(c, s.f.i + 1);
  }

  // What each leaves true of the keys tried.

  lemma ReceivingKeepsTried(c: Scenario, s: State)
    requires Quiet(s) && Fetched(c, s) && Tried(c, s) && s.d.Receiving? && DecryptStep(c, s).Some?
    ensures Tried(c, DecryptStep(c, s).value)
  {
    hide AllKeys, GivenKeys, FoundBefore, NoFatalBefore, Decisive, AllWrong, Clean, Truthful, StopExplained;
    if s.queue != [] {
      var taken := s.taken + [s.queue[0]];
      assert taken[..|taken| - 1] == s.taken;
      assert s.queue == [s.queue[0]] + s.queue[1..];
    }
  }

  lemma AllWrongSplit(c: Scenario, keys: seq<PublicKey>)
    requires keys != []
    ensures AllWrong(c, keys) <==> AllWrong(c, keys[..|keys| - 1]) && c.verdict(keys[|keys| - 1]).Wrong?
  {
    assert keys == keys[..|keys| - 1] + [keys[|keys| - 1]];
  }

  lemma DecryptingKeepsTried(c: Scenario, s: State)
    requires Fetched(c, s) && Tried(c, s) && (s.d.Checking? || s.d.Decrypting?)
    ensures DecryptStep(c, s).Some? && Tried(c, DecryptStep(c, s).value)
  {
    hide AllKeys, GivenKeys, FoundBefore, NoFatalBefore, Decisive, AllWrong, Clean, Truthful;
    AllWrongSplit(c, s.taken);
    var n := |s.taken| - 1;
    if !c.verdict(s.d.key).Wrong? {
      var all := AllKeys(c);
      assert all == s.taken[..n] + [s.d.key] + all[n + 1..];
      DecisiveAfter(c, s.taken[..n], s.d.key, all[n + 1..]);
      DecisiveOne(c, s.d.key);
    }
  }

  lemma DecisiveOne(c: Scenario, key: PublicKey)
    ensures Decisive(c, [key]) ==
            match c.verdict(key)
            case Opens(items) => Some(Document(items))
            case Breaks(e) => Some(FailedToDecrypt(e))
            case Wrong => None
  {
  }

  lemma SpeakingKeepsTried(c: Scenario, s: State)
    requires Tried(c, s) && DecryptStep(c, s).Some?
    requires s.d.Stopping? || s.d.Sending? || s.d.Ending? || s.d.Concluding?
    ensures Tried(c, DecryptStep(c, s).value)
  {
    hide AllKeys, Decisive, AllWrong, Clean;
    DecisiveNone(c, AllKeys(c));
  }

  // A step of another thread leaves what the decrypter did as it was.
  lemma SameTried(c: Scenario, s: State, r: State)
    requires Tried(c, s)
    requires r.d == s.d && r.saw == s.saw && r.taken == s.taken && r.byDecrypter == s.byDecrypter
    requires r.taken + r.queue == r.pushed && (s.stop ==> r.stop)
    requires forall message :: message in r.byFetcher ==> message == FailedToFetch
    ensures Tried(c, r)
  {
    hide AllKeys, Decisive, AllWrong, Truthful, Clean;
  }

  lemma PushOne(taken: seq<PublicKey>, queue: seq<PublicKey>, key: PublicKey)
    ensures taken + (queue + [key]) == (taken + queue) + [key]
  {
  }

  lemma MainKeepsTried(c: Scenario, s: State)
    requires Tried(c, s) && MainStep(c, s).Some?
    ensures Tried(c, MainStep(c, s).value)
  {
    QueueIsPushed(c, s);
    hide Tried, ReceiverAlive;
    if s.m.Giving? && c.given.Some? {
      PushOne(s.taken, s.queue, c.given.value);
    }
    SameTried(c, s, MainStep(c, s).value);
  }

  lemma FetchKeepsTried(c: Scenario, s: State)
    requires Tried(c, s) && FetchStepOf(c, s).Some?
    ensures Tried(c, FetchStepOf(c, s).value)
  {
    QueueIsPushed(c, s);
    hide Tried, ReceiverAlive;
    if s.f.Offering? {
      PushOne(s.taken, s.queue, s.f.key);
    }
    SameTried(c, s, FetchStepOf(c, s).value);
  }

  lemma QueueIsPushed(c: Scenario, s: State)
    requires Tried(c, s)
    ensures s.taken + s.queue == s.pushed
    ensures forall message :: message in s.byFetcher ==> message == FailedToFetch
  {
    hide AllKeys, Decisive, AllWrong, Truthful, Clean;
  }

  // ----- every interleaving

  lemma StepKeeps(c: Scenario, s: State, t: Thread)
    requires Invariant(c, s) && Step(c, s, t).Some?
    ensures Invariant(c, Step(c, s, t).value)
  {
    hide StopExplained, Mailbox, Control, Fetched, Tried, DecryptStep, FetchStepOf, MainStep;
    match t
    case DecryptThread =>
      DecryptKeepsExplained(c, s);
      DecryptKeepsMailbox(c, s);
      DecryptKeepsControl(c, s);
      DecryptKeepsFetched(c, s);
      DecryptKeepsTried(c, s);
    case FetchThread =>
      FetchKeepsExplained(c, s);
      FetchKeepsMailbox(c, s);
      FetchKeepsControl(c, s);
      FetchKeepsFetched(c, s);
      FetchKeepsTried(c, s);
    case MainThread =>
      if s.d.Exited? && s.f.Gone? {
        FinishedHaveSpoken(s);
      }
      MainKeepsExplained(c, s);
      MainKeepsMailbox(c, s);
      MainKeepsControl(c, s);
      MainKeepsFetched(c, s);
      MainKeepsTried(c, s);
  }

  lemma FetchKeepsFetched(c: Scenario, s: State)
    requires Control(s) && Fetched(c, s) && FetchStepOf(c, s).Some?
    ensures Fetched(c, FetchStepOf(c, s).value)
  {
    hide Control, Fetched, FetchStepOf;
    if s.f.Fetching? {
      FetchingKeepsFetched(c, s);
    } else if s.f.Offering? || s.f.GivingUp? {
      OfferingKeepsFetched(c, s);
    } else {
      FetchEndsKeepFetched(c, s);
    }
  }

  lemma DecryptKeepsTried(c: Scenario, s: State)
    requires Quiet(s) && Fetched(c, s) && Tried(c, s) && DecryptStep(c, s).Some?
    ensures Tried(c, DecryptStep(c, s).value)
  {
    hide Quiet, Fetched, Tried;
    match s.d
    case Receiving => ReceivingKeepsTried(c, s);
    case Checking(_) => DecryptingKeepsTried(c, s);
    case Decrypting(_) => DecryptingKeepsTried(c, s);
    case _ => SpeakingKeepsTried(c, s);
  }

  lemma StartHolds(c: Scenario)
    ensures Invariant(c, START)
  {
  }

  lemma {:induction false} AlwaysInvariant(c: Scenario, schedule: seq<Thread>)
    ensures Invariant(c, Run(c, schedule))
  {
    hide Invariant, Step;
    if schedule == [] {
      StartHolds(c);
    } else {
      var n := |schedule| - 1;
      var s := Run(c, schedule[..n]);
      AlwaysInvariant(c, schedule[..n]);
      if Step(c, s, schedule[n]).Some? {
        StepKeeps(c, s, schedule[n]);
      }
    }
  }

  /**
   In every interleaving: each thread speaks at most once, at least one has spoken
   once both are finished, and main never finds the channel closed on it.
   */
  lemma NoResultLost(c: Scenario, schedule: seq<Thread>)
    ensures var s := Run(c, schedule);
            && |s.byDecrypter| <= 1 && |s.byFetcher| <= 1 && |s.inbox| == |s.byDecrypter| + |s.byFetcher|
            && (s.d.Exited? && s.f.Gone? ==> s.inbox != [])
            && (s.m.Returned? ==> s.m.result.Some?)
  {
    hide Run, Fetched, Tried;
    AlwaysInvariant(c, schedule);
    var s := Run(c, schedule);
    if s.d.Exited? && s.f.Gone? {
      FinishedHaveSpoken(s);
    }
  }

  /**
   When the device does not fail, every interleaving returns what one thread trying
   all the keys in order would: the first document, or error that is not a wrong key.
   */
  lemma SameAsSequential(c: Scenario, schedule: seq<Thread>)
    requires Clean(c) && Run(c, schedule).m.Returned?
    ensures Run(c, schedule).m.result == Some(Expected(c))
  {
    hide Run, Control, StopExplained, Expected, Clean, AllKeys, FoundBefore, NoFatalBefore, Decisive, AllWrong;
    AlwaysInvariant(c, schedule);
    var s := Run(c, schedule);
    assert s.byFetcher == [];
    assert s.inbox[0] in s.byDecrypter;
  }

  /** When it fails, the result is its failure or the decisive message of a key before it. */
  lemma FailureOrDecisive(c: Scenario, schedule: seq<Thread>)
    requires !Clean(c) && Run(c, schedule).m.Returned?
    ensures var r := Run(c, schedule).m.result;
            r == Some(FailedToFetch) || (r == Decisive(c, AllKeys(c)) && r.Some?)
  {
    hide Run, Control, StopExplained, Clean, AllKeys, FoundBefore, NoFatalBefore, Decisive, AllWrong, Fetched;
    AlwaysInvariant(c, schedule);
    var s := Run(c, schedule);
    assert s.inbox[0] in s.byDecrypter || s.inbox[0] in s.byFetcher;
  }

  // ----- progress

  function DecryptFuel(d: Decrypter): nat {
    match d
    case Exited => 0
    case Sending(_) => 1
    case Concluding(_) => 1
    case Stopping(_) => 2
    case Ending => 2
    case Receiving => 3
    case Decrypting(_) => 4
    case Checking(_) => 5
  }

  function FetchFuel(c: Scenario, f: Fetcher): int {
    var n := |c.fetches|;
    match f
    case Gone => 0
    case Reporting => 1
    case Failing => 2
    case Looping(i) => 3 + 8 * (n - i)
    case Fetching(i) => 2 + 8 * (n - i)
    case Offering(i, _) => 1 + 8 * (n - i)
    case GivingUp(i) => 8 * (n - i)
    case Unlocking => 4 + 8 * n
    case Starting => 5 + 8 * n
    case Unborn => 6 + 8 * n
  }

  function MainFuel(m: Mainline): nat {
    match m
    case Returned(_) => 0
    case Finishing(_) => 1
    case Waiting => 2
    case DroppingSenders => 3
    case Spawning => 4
    case GivingFailed => 5
    case Giving => 9
  }

  /** An upper bound on the steps left. */
  function Fuel(c: Scenario, s: State): int {
    DecryptFuel(s.d) + FetchFuel(c, s.f) + MainFuel(s.m) + 3 * |s.queue|
  }

  lemma InRange(c: Scenario, s: State)
    requires Fetched(c, s)
    ensures Loops(s.f) ==> s.f.i <= |c.fetches|
    ensures s.f.Fetching? || s.f.Offering? || s.f.GivingUp? ==> s.f.i < |c.fetches|
  {
    hide AllKeys, GivenKeys, FoundBefore, NoFatalBefore, Clean;
  }

  lemma FetchFuelDrops(c: Scenario, s: State)
    requires Loops(s.f) ==> s.f.i <= |c.fetches|
    requires s.f.Fetching? || s.f.Offering? || s.f.GivingUp? ==> s.f.i < |c.fetches|
    requires FetchStepOf(c, s).Some?
    ensures var f := FetchStepOf(c, s).value.f;
            && 0 <= FetchFuel(c, f)
            && FetchFuel(c, f) + (if s.f.Offering? && f.Looping? then 4 else 1) <= FetchFuel(c, s.f)
  {
    hide ReceiverAlive;
  }

  lemma FetchQueues(c: Scenario, s: State)
    requires FetchStepOf(c, s).Some?
    ensures var r := FetchStepOf(c, s).value;
            r.d == s.d && r.m == s.m && |r.queue| <= |s.queue| + if s.f.Offering? && r.f.Looping? then 1 else 0
  {
    hide ReceiverAlive;
  }

  lemma FetchRunsOut(c: Scenario, s: State)
    requires Fetched(c, s) && FetchStepOf(c, s).Some?
    ensures 0 <= Fuel(c, FetchStepOf(c, s).value) < Fuel(c, s)
  {
    hide Fetched, DecryptFuel, MainFuel, FetchFuel, FetchStepOf, ReceiverAlive;
    InRange(c, s);
    FetchFuelDrops(c, s);
    FetchQueues(c, s);
  }

  lemma DecryptRunsOut(c: Scenario, s: State)
    requires Fetched(c, s) && DecryptStep(c, s).Some?
    ensures 0 <= Fuel(c, DecryptStep(c, s).value) < Fuel(c, s)
  {
    hide Fetched;
    InRange(c, s);
  }

  lemma MainRunsOut(c: Scenario, s: State)
    requires Fetched(c, s) && Control(s) && MainStep(c, s).Some?
    ensures 0 <= Fuel(c, MainStep(c, s).value) < Fuel(c, s)
  {
    hide Fetched;
    InRange(c, s);
  }

  /** Every step of every thread uses up fuel, so no run goes on forever. */
  lemma StepsRunOut(c: Scenario, s: State, t: Thread)
    requires Invariant(c, s) && Step(c, s, t).Some?
    ensures 0 <= Fuel(c, Step(c, s, t).value) < Fuel(c, s)
  {
    hide Fetched, Tried, StopExplained, Mailbox, Control, Fuel, DecryptStep, FetchStepOf, MainStep;
    match t
    case DecryptThread => DecryptRunsOut(c, s);
    case FetchThread => FetchRunsOut(c, s);
    case MainThread => MainRunsOut(c, s);
  }

  /** No interleaving gets stuck: when nobody can move, all have finished and main has its result. */
  lemma NeverStuck(c: Scenario, schedule: seq<Thread>)
    requires forall t :: Step(c, Run(c, schedule), t).None?
    ensures var s := Run(c, schedule);
            s.d.Exited? && s.f.Gone? && s.m.Returned? && s.m.result.Some?
  {
    hide Run, Fetched, Tried;
    var s := Run(c, schedule);
    AlwaysInvariant(c, schedule);
    NoResultLost(c, schedule);
    InRange(c, s);
    assert Step(c, s, DecryptThread).None? && Step(c, s, FetchThread).None? && Step(c, s, MainThread).None?;
  }

  ghost predicate Finished(s: State) {
    s.d.Exited? && s.f.Gone? && s.m.Returned? && s.m.result.Some?
  }

  /** Whatever the scheduler did so far, the command can still be run to its end, and to no later. */
  lemma {:induction false} Completes(c: Scenario, schedule: seq<Thread>) returns (more: seq<Thread>)
    ensures Finished(Run(c, schedule + more))
    ensures |more| <= if Fuel(c, Run(c, schedule)) < 0 then 0 else Fuel(c, Run(c, schedule))
    decreases Fuel(c, Run(c, schedule))
  {
    hide Invariant, Step, Fuel;
    var s := Run(c, schedule);
    AlwaysInvariant(c, schedule);
    if t :| Step(c, s, t).Some? {
      StepsRunOut(c, s, t);
      assert (schedule + [t])[..|schedule|] == schedule;
      var rest := Completes(c, schedule + [t]);
      more := [t] + rest;
      assert schedule + more == schedule + [t] + rest;
    } else {
      NeverStuck(c, schedule);
      more := [];
      assert schedule + more == schedule;
    }
  }

  ghost predicate EveryPickMoves(c: Scenario, schedule: seq<Thread>) {
    forall i :: 0 <= i < |schedule| ==> Step(c, Run(c, schedule[..i]), schedule[i]).Some?
  }

  /** No run takes more steps than its fuel, linear in the number of planned fetches. */
  lemma {:induction false} BoundedRuns(c: Scenario, schedule: seq<Thread>)
    requires EveryPickMoves(c, schedule)
    ensures |schedule| + Fuel(c, Run(c, schedule)) <= Fuel(c, START) == 18 + 8 * |c.fetches|
    ensures schedule != [] ==> 0 <= Fuel(c, Run(c, schedule))
  {
    hide Invariant, Step;
    if schedule != [] {
      var n := |schedule| - 1;
      forall i | 0 <= i < n ensures Step(c, Run(c, schedule[..n][..i]), schedule[..n][i]).Some? {
        assert schedule[..n][..i] == schedule[..i];
      }
      BoundedRuns(c, schedule[..n]);
      AlwaysInvariant(c, schedule[..n]);
      StepsRunOut(c, Run(c, schedule[..n]), schedule[n]);
    }
  }
}
