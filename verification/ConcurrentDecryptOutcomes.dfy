/** Exactly what the decrypt command can return, over all schedules. */
module ConcurrentDecryptOutcomes {
  import opened Prelude
  import opened Descriptors
  import opened Documents
  import opened ConcurrentDecrypt
  import opened ConcurrentDecryptProofs

  lemma NoSteps(c: Scenario)
    ensures Run(c, []) == START
  {
  }

  lemma Pick(c: Scenario, schedule: seq<Thread>, t: Thread) returns (longer: seq<Thread>)
    requires Step(c, Run(c, schedule), t).Some?
    ensures longer == schedule + [t] && Run(c, longer) == Step(c, Run(c, schedule), t).value
  {
    longer := schedule + [t];
    assert longer[..|schedule|] == schedule;
  }

  // ----- the decrypt thread waits while the fetch thread works

  // Nothing was tried yet; only the fetcher and the queue may have moved.
  predicate Untouched(s: State) {
    s.d == Receiving && !s.stop && s.inbox == [] && s.m == DroppingSenders && s.taken == []
  }

  lemma Spawn(c: Scenario) returns (born: seq<Thread>)
    ensures Untouched(Run(c, born)) && Run(c, born).f == Starting && Run(c, born).queue == GivenKeys(c)
  {
    hide Run, KeysClosed;
    NoSteps(c);
    born := Pick(c, [], MainThread);
    born := Pick(c, born, MainThread);
  }

  lemma Unlock(c: Scenario) returns (tried: seq<Thread>)
    ensures var s := Run(c, tried);
            Untouched(s) && s.queue == GivenKeys(c) && s.f == if c.unlocks then Looping(0) else Failing
  {
    hide Run, ReceiverAlive, KeysClosed, GivenKeys;
    tried := Spawn(c);
    tried := Pick(c, tried, FetchThread);
    tried := Pick(c, tried, FetchThread);
  }

  /** One fetch that is not fatal, with what it finds put into the queue. */
  lemma FetchOne(c: Scenario, before: seq<Thread>, i: nat) returns (after: seq<Thread>)
    requires i < |c.fetches| && !c.fetches[i].Fatal?
    requires Untouched(Run(c, before)) && Run(c, before).f == Looping(i)
    ensures Untouched(Run(c, after)) && Run(c, after).f == Looping(i + 1)
  {
    hide Run, KeysClosed;
    after := Pick(c, before, FetchThread);
    after := Pick(c, after, FetchThread);
    if c.fetches[i].Found? {
      after := Pick(c, after, FetchThread);
    }
  }

  lemma {:induction false} FetchUpTo(c: Scenario, n: nat) returns (reached: seq<Thread>)
    requires c.unlocks && n <= |c.fetches| && NoFatalBefore(c.fetches, n)
    ensures Untouched(Run(c, reached)) && Run(c, reached).f == Looping(n)
  {
    if n == 0 {
      reached := Unlock(c);
    } else {
      reached := FetchUpTo(c, n - 1);
      reached := FetchOne(c, reached, n - 1);
    }
  }

  lemma {:induction false} FirstFatal(fetches: seq<FetchStep>) returns (n: nat)
    ensures n <= |fetches| && NoFatalBefore(fetches, n)
    ensures n == |fetches| <==> Fatal !in fetches
    ensures n < |fetches| ==> fetches[n] == Fatal
  {
    n := 0;
    while n < |fetches| && fetches[n] != Fatal
      invariant n <= |fetches| && NoFatalBefore(fetches, n)
    {
      n := n + 1;
    }
  }

  lemma QueuedSoFar(c: Scenario, schedule: seq<Thread>, n: nat)
    requires Untouched(Run(c, schedule)) && Run(c, schedule).f == Looping(n)
    ensures n <= |c.fetches| && Run(c, schedule).queue == GivenKeys(c) + FoundBefore(c.fetches, n)
  {
    hide Run, AllKeys, GivenKeys, FoundBefore, NoFatalBefore, Clean, Quiet, AllWrong;
    AlwaysInvariant(c, schedule);
  }

  lemma NothingAfterFatal(fetches: seq<FetchStep>, n: nat)
    requires n <= |fetches| && NoFatalBefore(fetches, n) && (n < |fetches| ==> fetches[n].Fatal?)
    ensures FoundKeys(fetches) == FoundBefore(fetches, n)
  {
    FoundSplits(fetches, n);
  }

  /** Everything the device gives is in the queue, and nothing was tried; `n` is where it stops giving. */
  lemma FetchAll(c: Scenario) returns (reached: seq<Thread>, n: nat)
    ensures Untouched(Run(c, reached)) && Run(c, reached).queue == AllKeys(c)
    ensures Run(c, reached).f == if c.unlocks then Looping(n) else Failing
    ensures n <= |c.fetches| && (Clean(c) <==> c.unlocks && n == |c.fetches|)
    ensures n < |c.fetches| ==> c.fetches[n] == Fatal
  {
    hide Run, FoundBefore, FoundKeys, Untouched, NoFatalBefore;
    n := FirstFatal(c.fetches);
    if c.unlocks {
      reached := FetchUpTo(c, n);
      QueuedSoFar(c, reached, n);
      NothingAfterFatal(c.fetches, n);
    } else {
      reached := Unlock(c);
    }
  }

  // ----- the device's failure first

  lemma Fail(c: Scenario, reached: seq<Thread>) returns (failing: seq<Thread>)
    requires Untouched(Run(c, reached)) && Run(c, reached).f.Looping?
    requires Run(c, reached).f.i < |c.fetches| && c.fetches[Run(c, reached).f.i] == Fatal
    ensures Untouched(Run(c, failing)) && Run(c, failing).f == Failing
  {
    hide Run, ReceiverAlive, KeysClosed;
    failing := Pick(c, reached, FetchThread);
    failing := Pick(c, failing, FetchThread);
  }

  lemma Report(c: Scenario, failing: seq<Thread>) returns (reported: seq<Thread>)
    requires Untouched(Run(c, failing)) && Run(c, failing).f == Failing
    ensures Run(c, reported).inbox == [FailedToFetch] && Run(c, reported).m == DroppingSenders
  {
    hide Run, ReceiverAlive, KeysClosed;
    reported := Pick(c, failing, FetchThread);
    reported := Pick(c, reported, FetchThread);
  }

  lemma Receive(c: Scenario, sent: seq<Thread>) returns (done: seq<Thread>)
    requires Run(c, sent).inbox != [] && Run(c, sent).m == DroppingSenders
    ensures Run(c, done).m == Returned(Some(Run(c, sent).inbox[0]))
  {
    hide Run, ReceiverAlive, KeysClosed;
    done := Pick(c, sent, MainThread);
    done := Pick(c, done, MainThread);
    done := Pick(c, done, MainThread);
  }

  /** Whenever the device fails, on unlocking or at any fetch, some schedule returns that failure. */
  lemma CanLose(c: Scenario) returns (lost: seq<Thread>)
    requires !Clean(c)
    ensures Run(c, lost).m == Returned(Some(FailedToFetch))
  {
    hide Run, Untouched, AllKeys, Clean;
    var n;
    lost, n := FetchAll(c);
    if c.unlocks {
      lost := Fail(c, lost);
    }
    lost := Report(c, lost);
    lost := Receive(c, lost);
  }

  // ----- the keys first

  // The decrypter is at its queue and nobody has spoken.
  predicate Trying(s: State, keys: seq<PublicKey>) {
    s.d == Receiving && !s.stop && s.inbox == [] && s.m == DroppingSenders && s.queue == keys
  }

  lemma TryWrong(c: Scenario, schedule: seq<Thread>, keys: seq<PublicKey>) returns (next: seq<Thread>)
    requires keys != [] && c.verdict(keys[0]).Wrong? && Trying(Run(c, schedule), keys)
    ensures Trying(Run(c, next), keys[1..])
  {
    hide Run, KeysClosed;
    next := Pick(c, schedule, DecryptThread);
    next := Pick(c, next, DecryptThread);
    next := Pick(c, next, DecryptThread);
  }

  lemma TryDecisive(c: Scenario, schedule: seq<Thread>, keys: seq<PublicKey>) returns (sent: seq<Thread>)
    requires keys != [] && !c.verdict(keys[0]).Wrong? && Trying(Run(c, schedule), keys)
    ensures Decisive(c, keys).Some?
    ensures Run(c, sent).inbox == [Decisive(c, keys).value] && Run(c, sent).m == DroppingSenders
  {
    hide Run, KeysClosed;
    sent := Pick(c, schedule, DecryptThread);
    sent := Pick(c, sent, DecryptThread);
    sent := Pick(c, sent, DecryptThread);
    sent := Pick(c, sent, DecryptThread);
    sent := Pick(c, sent, DecryptThread);
  }

  lemma {:induction false} TryKeys(c: Scenario, schedule: seq<Thread>, keys: seq<PublicKey>) returns (sent: seq<Thread>)
    requires Decisive(c, keys).Some? && Trying(Run(c, schedule), keys)
    ensures Run(c, sent).inbox == [Decisive(c, keys).value] && Run(c, sent).m == DroppingSenders
    decreases |keys|
  {
    hide Run, Trying;
    if c.verdict(keys[0]).Wrong? {
      sent := TryWrong(c, schedule, keys);
      sent := TryKeys(c, sent, keys[1..]);
    } else {
      sent := TryDecisive(c, schedule, keys);
    }
  }

  /** Whenever some key is decisive, given or fetched, some schedule returns its message. */
  lemma CanWin(c: Scenario, message: Message) returns (won: seq<Thread>)
    requires Decisive(c, AllKeys(c)) == Some(message)
    ensures Run(c, won).m == Returned(Some(message))
  {
    hide Run, AllKeys, Clean, Decisive;
    var n;
    won, n := FetchAll(c);
    won := TryKeys(c, won, AllKeys(c));
    won := Receive(c, won);
  }

  // ----- exactly

  /** A failing device and a decisive key: the schedule alone chooses between the two. */
  lemma RaceBothWays(c: Scenario, message: Message) returns (won: seq<Thread>, lost: seq<Thread>)
    requires !Clean(c) && Decisive(c, AllKeys(c)) == Some(message)
    ensures Run(c, won).m == Returned(Some(message))
    ensures Run(c, lost).m == Returned(Some(FailedToFetch))
    ensures message != FailedToFetch
  {
    hide Run, AllKeys, Clean, Decisive;
    won := CanWin(c, message);
    lost := CanLose(c);
    DecisiveIsNoFetchFailure(c, AllKeys(c));
  }

  lemma {:induction false} DecisiveIsNoFetchFailure(c: Scenario, keys: seq<PublicKey>)
    ensures Decisive(c, keys) != Some(FailedToFetch)
  {
    if keys != [] {
      DecisiveIsNoFetchFailure(c, keys[1..]);
    }
  }

  /** Some schedule makes the command return this. */
  ghost predicate CanReturn(c: Scenario, message: Message) {
    exists schedule :: Run(c, schedule).m == Returned(Some(message))
  }

  /**
   The outcomes of a scenario, all of them: without a failure of the device the
   sequential one; with one, that failure and the decisive message if there is one.
   */
  lemma OutcomesAre(c: Scenario, message: Message)
    ensures CanReturn(c, message) <==>
            if Clean(c) then message == Expected(c)
            else message == FailedToFetch || Decisive(c, AllKeys(c)) == Some(message)
  {
    hide Run, AllKeys, Clean, Decisive, Expected;
    if schedule :| Run(c, schedule).m == Returned(Some(message)) {
      if Clean(c) {
        SameAsSequential(c, schedule);
      } else {
        FailureOrDecisive(c, schedule);
      }
    }
    if Clean(c) {
      var schedule := Completes(c, []);
      assert [] + schedule == schedule;
      SameAsSequential(c, schedule);
    } else {
      var lost := CanLose(c);
      if Decisive(c, AllKeys(c)) == Some(message) {
        var won := CanWin(c, message);
      }
    }
  }

  /** The result is always the sequential one exactly when the device does not fail. */
  lemma SequentialExactly(c: Scenario)
    ensures Clean(c) <==>
            forall schedule :: Run(c, schedule).m.Returned? ==> Run(c, schedule).m.result == Some(Expected(c))
  {
    hide Run, Clean;
    if Clean(c) {
      forall schedule | Run(c, schedule).m.Returned? ensures Run(c, schedule).m.result == Some(Expected(c)) {
        SameAsSequential(c, schedule);
      }
    } else {
      var lost := CanLose(c);
      DecisiveIsNoFetchFailure(c, AllKeys(c));
    }
  }

  /** No two schedules disagree exactly when the device does not fail or no key is decisive. */
  lemma DeterminedExactly(c: Scenario)
    ensures Clean(c) || Decisive(c, AllKeys(c)) == None <==>
            forall a, b :: CanReturn(c, a) && CanReturn(c, b) ==> a == b
  {
    hide CanReturn, AllKeys, Clean, Decisive, Expected;
    forall message
      ensures CanReturn(c, message) <==>
              if Clean(c) then message == Expected(c)
              else message == FailedToFetch || Decisive(c, AllKeys(c)) == Some(message)
    {
      OutcomesAre(c, message);
    }
    DecisiveIsNoFetchFailure(c, AllKeys(c));
    if !Clean(c) && Decisive(c, AllKeys(c)).Some? {
      assert CanReturn(c, FailedToFetch) && CanReturn(c, Decisive(c, AllKeys(c)).value);
    }
  }

  /** What is reported when no key is decisive: that all were wrong, or that there was none. */
  lemma NothingDecisive(c: Scenario, schedule: seq<Thread>)
    requires Clean(c) && Run(c, schedule).m.Returned?
    requires forall k :: k in AllKeys(c) ==> c.verdict(k) == Wrong
    ensures Run(c, schedule).m.result ==
            Some(if AllKeys(c) == [] then NoKeys else FailedToDecrypt(NoMatchingKey))
  {
    hide Run, AllKeys, Clean;
    SameAsSequential(c, schedule);
    DecisiveNone(c, AllKeys(c));
  }
}
