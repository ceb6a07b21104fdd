/**
 The decrypt command: one thread fetches keys from a device, one tries them, the
 main thread waits for the first message. Threads share a stop flag, a queue of
 keys and a channel of messages, and interleave freely.
 */
module ConcurrentDecrypt {
  import opened Prelude
  import opened Descriptors
  import opened Documents

  type Items = seq<Extracted<()>>

  // What decrypting with one key leads to.
  datatype Verdict = Opens(items: Items) | Wrong | Breaks(failure: Failure)

  datatype Message = Document(items: Items) | FailedToDecrypt(failure: Failure) | NoKeys | FailedToFetch

  // One planned fetch: a key, a failure that is only a warning, or a fatal one.
  datatype FetchStep = Found(key: PublicKey) | Missing | Fatal

  // What the threads meet: the key given by hand, the device, the backup.
  datatype Scenario = Scenario(
    given: Option<PublicKey>, unlocks: bool, fetches: seq<FetchStep>, verdict: PublicKey -> Verdict)

  datatype Decrypter =
    | Receiving | Checking(key: PublicKey) | Decrypting(key: PublicKey)
    | Stopping(message: Message) | Sending(message: Message)
    | Ending | Concluding(message: Message) | Exited

  datatype Fetcher =
    | Unborn | Starting | Unlocking | Looping(i: nat) | Fetching(i: nat)
    | Offering(i: nat, key: PublicKey) | GivingUp(i: nat) | Failing | Reporting | Gone

  // A result of `None` is a channel whose senders are all gone.
  datatype Mainline =
    | Giving | GivingFailed | Spawning | DroppingSenders | Waiting
    | Finishing(result: Option<Message>) | Returned(result: Option<Message>)

  // `pushed` and `taken` are the keys that went into and out of the queue so far;
  // `byDecrypter` and `byFetcher` split the inbox by sender.
  datatype State = State(
    stop: bool, queue: seq<PublicKey>, inbox: seq<Message>, saw: bool,
    d: Decrypter, f: Fetcher, m: Mainline,
    pushed: seq<PublicKey>, taken: seq<PublicKey>, byDecrypter: seq<Message>, byFetcher: seq<Message>)

  datatype Thread = DecryptThread | FetchThread | MainThread

  const START: State := State(false, [], [], false, Receiving, Unborn, Giving, [], [], [], [])

  /** The receiving end of the key queue lives as long as the loop over it. */
  predicate ReceiverAlive(s: State) {
    !s.d.Ending? && !s.d.Concluding? && !s.d.Exited?
  }

  /** Every sending end of the key queue is gone. */
  predicate KeysClosed(s: State) {
    s.f.Gone? && (s.m.Waiting? || s.m.Finishing? || s.m.Returned?)
  }

  function EndMessage(saw: bool): Message {
    if saw then FailedToDecrypt(NoMatchingKey) else NoKeys
  }

  function DecryptStep(c: Scenario, s: State): Option<State> {
    match s.d
    case Receiving =>
      if s.queue != [] then
        Some(s.(d := Checking(s.queue[0]), queue := s.queue[1..], taken := s.taken + [s.queue[0]]))
      else if KeysClosed(s) then Some(s.(d := Ending))
      else None
    case Checking(key) => Some(if s.stop then s.(d := Ending) else s.(d := Decrypting(key), saw := true))
    case Decrypting(key) =>
      (match c.verdict(key)
       case Opens(items) => Some(s.(d := Stopping(Document(items))))
       case Wrong => Some(s.(d := Receiving))
       case Breaks(e) => Some(s.(d := Stopping(FailedToDecrypt(e)))))
    case Stopping(message) => Some(s.(stop := true, d := Sending(message)))
    case Sending(message) => Some(Send(s, message))
    case Ending => Some(s.(d := if s.stop then Exited else Concluding(EndMessage(s.saw))))
    case Concluding(message) => Some(Send(s, message))
    case Exited => None
  }

  function Send(s: State, message: Message): State {
    s.(d := Exited, inbox := s.inbox + [message], byDecrypter := s.byDecrypter + [message])
  }

  function FetchStepOf(c: Scenario, s: State): Option<State> {
    match s.f
    case Unborn => None
    case Starting => Some(s.(f := if s.stop then Gone else Unlocking))
    case Unlocking => Some(s.(f := if c.unlocks then Looping(0) else Failing))
    case Looping(i) => Some(s.(f := if i >= |c.fetches| || s.stop then Gone else Fetching(i)))
    case Fetching(i) =>
      if i >= |c.fetches| then None
      else
        Some(s.(f := match c.fetches[i]
                     case Found(key) => Offering(i, key)
                     case Missing => Looping(i + 1)
                     case Fatal => Failing))
    case Offering(i, key) =>
      if ReceiverAlive(s) then
        Some(s.(queue := s.queue + [key], pushed := s.pushed + [key], f := Looping(i + 1)))
      else Some(s.(f := GivingUp(i)))
    case GivingUp(i) => Some(s.(stop := true, f := Looping(i + 1)))
    case Failing => Some(s.(stop := true, f := Reporting))
    case Reporting =>
      Some(s.(inbox := s.inbox + [FailedToFetch], byFetcher := s.byFetcher + [FailedToFetch], f := Gone))
    case Gone => None
  }

  function MainStep(c: Scenario, s: State): Option<State> {
    match s.m
    case Giving =>
      (match c.given
       case None => Some(s.(m := Spawning))
       case Some(key) =>
         if ReceiverAlive(s) then
           Some(s.(queue := s.queue + [key], pushed := s.pushed + [key], m := Spawning))
         else Some(s.(m := GivingFailed)))
    case GivingFailed => Some(s.(stop := true, m := Spawning))
    case Spawning => Some(s.(f := Starting, m := DroppingSenders))
    case DroppingSenders => Some(s.(m := Waiting))
    case Waiting =>
      if s.inbox != [] then Some(s.(m := Finishing(Some(s.inbox[0]))))
      else if s.d.Exited? && s.f.Gone? then Some(s.(m := Finishing(None)))
      else None
    case Finishing(r) => Some(s.(stop := true, m := Returned(r)))
    case Returned(_) => None
  }

  /** One step of one thread; `None` when it is blocked or done. */
  function Step(c: Scenario, s: State, t: Thread): Option<State> {
    match t
    case DecryptThread => DecryptStep(c, s)
    case FetchThread => FetchStepOf(c, s)
    case MainThread => MainStep(c, s)
  }

  /** An interleaving: whom the scheduler picks; a blocked thread does not move. */
  function Run(c: Scenario, schedule: seq<Thread>): State {
    if schedule == [] then START
    else
      var s := Run(c, schedule[..|schedule| - 1]);
      match Step(c, s, schedule[|schedule| - 1])
      case Some(next) => next
      case None => s
  }

  // ----- what should come out

  /** Keys of the fetches up to the first fatal one. */
  function FoundKeys(fetches: seq<FetchStep>): seq<PublicKey> {
    if fetches == [] then []
    else
      match fetches[0]
      case Found(key) => [key] + FoundKeys(fetches[1..])
      case Missing => FoundKeys(fetches[1..])
      case Fatal => []
  }

  function GivenKeys(c: Scenario): seq<PublicKey> {
    match c.given
    case Some(key) => [key]
    case None => []
  }

  /** Every key that can reach the queue, in order. */
  function AllKeys(c: Scenario): seq<PublicKey> {
    GivenKeys(c) + if c.unlocks then FoundKeys(c.fetches) else []
  }

  /** Message of the first key that is not simply wrong. */
  function Decisive(c: Scenario, keys: seq<PublicKey>): Option<Message> {
    if keys == [] then None
    else
      match c.verdict(keys[0])
      case Opens(items) => Some(Document(items))
      case Breaks(e) => Some(FailedToDecrypt(e))
      case Wrong => Decisive(c, keys[1..])
  }

  /** The device never fails fatally. */
  predicate Clean(c: Scenario) {
    c.unlocks && Fatal !in c.fetches
  }

  /** What a single thread trying all the keys in order would report. */
  function Expected(c: Scenario): Message {
    match Decisive(c, AllKeys(c))
    case Some(message) => message
    case None => EndMessage(AllKeys(c) != [])
  }
}
