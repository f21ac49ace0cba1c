/** The fetch-dispatch-delete cycle as values: what `fetch_pop` and
    `fetch_imap` do to their session and to the mailer class, written as a
    trace of events, together with the guard `check_mailer!` and the
    per-message deletion decision. The methods of module MailFetcher are
    proved to produce exactly these traces. */
module Cycle {
  import opened Options

  /** The mailer class as far as the fetcher can see it: the class methods
      it responds to. */
  datatype Consumer = Consumer(responds: set<MethodName>)

  /** One section of the configuration file. */
  datatype Config = Config(server: string, port: Option<int>, username: string, password: string)

  datatype Error =
    | NoMailerError                  // MailFetcher::NoMailerError
    | MailerClassInterfaceError      // MailFetcher::MailerClassInterfaceError
    | NoMethodError(name: string)    // Ruby's error for `send` of an unknown method

  datatype Outcome = Completed | Raised(error: Error)

  datatype Protocol = Pop | Imap

  /** What a dispatched method receives: an e-mail, or the live IMAP session. */
  datatype Payload = Email(message: Message) | LiveSession

  /** One step of a cycle, in the order the code performs it. Messages are
      numbered from 1 in enumeration order, as both protocols number them. */
  datatype Event =
    | Connect(protocol: Protocol, server: string, port: Option<int>, username: string)
    | Examine(folder: string)                    // imap.examine
    | SearchAll                                  // imap.search(['ALL'])
    | Retrieve(protocol: Protocol, num: nat)     // mail.pop, imap.fetch(id, 'RFC822')
    | Invoke(name: MethodName, payload: Payload)    // mailer_class.send(name, payload)
    | MarkDeleted(protocol: Protocol, num: nat)  // mail.delete, imap.store(id, '+FLAGS', [:Deleted])
    | Finish                                     // pop.finish
    | Close                                      // imap.close

  /** The result of a run of steps: the events it produced and, when a
      `send` raised, the method name the mailer class lacked. */
  datatype Step = Step(events: seq<Event>, failure: Option<MethodName>)

  function OutcomeOf(failure: Option<MethodName>): (r: Outcome)
    ensures r.Completed? <==> failure.None?
  {
    if failure.Some? then Raised(NoMethodError(failure.value)) else Completed
  }

  /** The size of `[methods].flatten`; a missing value flattens to `[nil]`. */
  function MethodCount(m: Option<MethodSpec>): nat
  {
    if m.None? then 1 else |Flatten(m.value)|
  }

  /** `check_mailer!`: the mailer class must be set; and when exactly one
      method is configured, whatever its name, the class must respond to
      `receive`. */
  function CheckMailer(mailer: Option<Consumer>, o: FetchOptions): (r: Outcome)
    ensures r == Raised(NoMailerError) <==> mailer.None?
    ensures r == Raised(MailerClassInterfaceError) <==>
              mailer.Some? && MethodCount(o.mailerMethods) == 1 && "receive" !in mailer.value.responds
    ensures r.Completed? || r == Raised(NoMailerError) || r == Raised(MailerClassInterfaceError)
  {
    if mailer.None? then Raised(NoMailerError)
    else if MethodCount(o.mailerMethods) == 1 && "receive" !in mailer.value.responds then
      Raised(MailerClassInterfaceError)
    else Completed
  }

  // ---------------------------------------------------------------------
  // Deletion policy

  /** The delete (POP) or flag (IMAP) requests issued for message `num`:
      one from the `:delete_if` statement when the block answers true, and
      one more from the `unless options[:keep]` statement. */
  function DeleteRequests(proto: Protocol, o: FetchOptions, num: nat, m: Message): seq<Event>
  {
    (if o.deleteIf.Some? && o.deleteIf.value(m) then [MarkDeleted(proto, num)] else [])
    + (if !Truthy(o.keep) then [MarkDeleted(proto, num)] else [])
  }

  /** The documented policy: with a block, the block alone decides;
      without one, an e-mail is deleted unless `:keep` is set. */
  predicate PolicyDeletes(o: FetchOptions, m: Message)
  {
    if o.deleteIf.Some? then o.deleteIf.value(m) else !Truthy(o.keep)
  }

  /** Whether any request is issued for an e-mail. */
  predicate ShouldDelete(o: FetchOptions, m: Message)
  {
    (o.deleteIf.Some? && o.deleteIf.value(m)) || !Truthy(o.keep)
  }

  // ---------------------------------------------------------------------
  // Dispatch

  /** The index of the first name the mailer class does not respond to,
      or the length of the list when it responds to all of them. */
  function FirstUnsupported(c: Consumer, names: seq<MethodName>): (k: nat)
    ensures k <= |names|
    ensures forall j :: 0 <= j < k ==> names[j] in c.responds
    ensures k < |names| ==> names[k] !in c.responds
  {
    if names == [] || names[0] !in c.responds then 0
    else 1 + FirstUnsupported(c, names[1..])
  }

  predicate AllSupported(c: Consumer, names: seq<MethodName>)
  {
    forall n :: n in names ==> n in c.responds
  }

  /** One call per name, in list order, all with the same payload. */
  function Calls(names: seq<MethodName>, p: Payload): seq<Event>
  {
    seq(|names|, i requires 0 <= i < |names| => Invoke(names[i], p))
  }

  /** `names.each {|method| mailer_class.send(method, payload)}`: the calls
      up to the first method the class lacks, which raises. */
  function Dispatch(c: Consumer, names: seq<MethodName>, p: Payload): (r: Step)
    ensures r.failure.None? <==> AllSupported(c, names)
    ensures r.failure.None? ==> r.events == Calls(names, p)
    ensures r.failure.Some? ==>
      exists k :: 0 <= k < |names| && r.failure == Some(names[k]) && names[k] !in c.responds
        && (forall j :: 0 <= j < k ==> names[j] in c.responds)
        && r.events == Calls(names[..k], p)
  {
    var k := FirstUnsupported(c, names);
    Step(Calls(names[..k], p), if k < |names| then Some(names[k]) else None)
  }

  // ---------------------------------------------------------------------
  // The message loop and the two cycles

  /** The loop body for message `num`: retrieve it, dispatch it to every
      configured method, then issue its delete requests. */
  function HandleMessage(proto: Protocol, o: FetchOptions, c: Consumer, names: seq<MethodName>,
                         num: nat, m: Message): Step
  {
    var d := Dispatch(c, names, Email(m));
    if d.failure.Some? then Step([Retrieve(proto, num)] + d.events, d.failure)
    else Step([Retrieve(proto, num)] + d.events + DeleteRequests(proto, o, num, m), None)
  }

  /** The message loop after its first `n` iterations; a `send` that raised
      ends the loop. */
  function Run(proto: Protocol, o: FetchOptions, c: Consumer, names: seq<MethodName>,
               msgs: seq<Message>, n: nat): Step
    requires n <= |msgs|
    decreases n
  {
    if n == 0 then Step([], None)
    else
      var prev := Run(proto, o, c, names, msgs, n - 1);
      if prev.failure.Some? then prev
      else
        var h := HandleMessage(proto, o, c, names, n, msgs[n - 1]);
        Step(prev.events + h.events, h.failure)
  }

  /** `[options[:mailer_methods]].flatten`, once the option is set. */
  function MailerMethods(o: FetchOptions): seq<MethodName>
    requires o.mailerMethods.Some?
  {
    Flatten(o.mailerMethods.value)
  }

  /** `fetch_pop`: connect, run the loop over every pending message, then
      send `finish` only when asked to. */
  function PopCycle(cfg: Config, o: FetchOptions, c: Consumer, msgs: seq<Message>): Step
    requires o.mailerMethods.Some?
  {
    var run := Run(Pop, o, c, MailerMethods(o), msgs, |msgs|);
    Step([Connect(Pop, cfg.server, None, cfg.username)] + run.events
         + (if run.failure.None? && Truthy(o.finish) then [Finish] else []),
         run.failure)
  }

  /** `fetch_imap`: connect; with `:use_imap` hand the session to each named
      method and stop; otherwise examine INBOX, run the loop over every
      message the search finds, then close. */
  function ImapCycle(cfg: Config, o: FetchOptions, c: Consumer, msgs: seq<Message>): Step
    requires o.mailerMethods.Some?
  {
    var login := [Connect(Imap, cfg.server, cfg.port, cfg.username)];
    if o.useImap.Some? then
      var d := Dispatch(c, Flatten(o.useImap.value), LiveSession);
      Step(login + d.events, d.failure)
    else
      var run := Run(Imap, o, c, MailerMethods(o), msgs, |msgs|);
      Step(login + [Examine("INBOX"), SearchAll] + run.events
           + (if run.failure.None? then [Close] else []),
           run.failure)
  }

  function CycleOf(proto: Protocol, cfg: Config, o: FetchOptions, c: Consumer, msgs: seq<Message>): Step
    requires o.mailerMethods.Some?
  {
    match proto
    case Pop => PopCycle(cfg, o, c, msgs)
    case Imap => ImapCycle(cfg, o, c, msgs)
  }

  /** `send :"fetch_#{access || "imap"}"`: the handler the access setting
      names, or none when no `fetch_` method has that name. */
  function ProtocolFor(access: Option<string>): Option<Protocol>
  {
    if access.None? || access.value == "imap" then Some(Imap)
    else if access.value == "pop" then Some(Pop)
    else None
  }

  /** `options[:env] || ENV["RAILS_ENV"]`: the configuration section to load. */
  function ConfigSection(o: FetchOptions, railsEnv: string): string
  {
    if o.env.Some? then o.env.value else railsEnv
  }

  // ---------------------------------------------------------------------
  // Views of a trace

  /** The calls made on the mailer class, in order. */
  function Invocations(events: seq<Event>): seq<Event>
    decreases |events|
  {
    if events == [] then []
    else Invocations(events[..|events| - 1])
         + (if events[|events| - 1].Invoke? then [events[|events| - 1]] else [])
  }

  /** The numbers of the messages a delete or flag request was issued for,
      one entry per request, in order. */
  function DeletedNumbers(events: seq<Event>): seq<nat>
    decreases |events|
  {
    if events == [] then []
    else DeletedNumbers(events[..|events| - 1])
         + (if events[|events| - 1].MarkDeleted? then [events[|events| - 1].num] else [])
  }

  /** The expected dispatch log of a completed loop: every method, in list
      order, for each message in enumeration order. */
  function DispatchLog(names: seq<MethodName>, msgs: seq<Message>): seq<Event>
    decreases |msgs|
  {
    if msgs == [] then []
    else DispatchLog(names, msgs[..|msgs| - 1]) + Calls(names, Email(msgs[|msgs| - 1]))
  }

  /** The messages the policy leaves on the server, in order. */
  function Kept(o: FetchOptions, msgs: seq<Message>): seq<Message>
    decreases |msgs|
  {
    if msgs == [] then []
    else Kept(o, msgs[..|msgs| - 1])
         + (if ShouldDelete(o, msgs[|msgs| - 1]) then [] else [msgs[|msgs| - 1]])
  }

  /** The messages a block does not match, in order. */
  function Unmatched(f: Message -> bool, msgs: seq<Message>): seq<Message>
    decreases |msgs|
  {
    if msgs == [] then []
    else Unmatched(f, msgs[..|msgs| - 1]) + (if f(msgs[|msgs| - 1]) then [] else [msgs[|msgs| - 1]])
  }

  /** The mailbox a server holds once it has removed the messages whose
      numbers appear in `deleted` (what a server that honours the requests
      leaves for the next cycle). */
  function Survivors(msgs: seq<Message>, deleted: seq<nat>): seq<Message>
    decreases |msgs|
  {
    if msgs == [] then []
    else Survivors(msgs[..|msgs| - 1], deleted) + (if |msgs| in deleted then [] else [msgs[|msgs| - 1]])
  }
}
