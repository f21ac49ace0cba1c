# MailFetcher in Dafny

A model of `MailFetcher`, a Rails plugin that fetches e-mail over POP3 or
IMAP and hands each message to a configured "mailer class". One call to
`MailFetcher.fetch(options)` does the following:

- fills in the defaults of the options hash in place (`prepare_options`);
- checks that a mailer class is set and that it can receive mail (`check_mailer!`);
- loads the configuration section once;
- runs `fetch_pop` or `fetch_imap`, whichever `access` names (IMAP when unset).

Each handler walks the messages in the order the server enumerates them. It
sends every message to each configured method of the mailer class, in list
order. It then issues the message's delete request (POP `DELE`) or flag
request (IMAP `STORE +FLAGS \Deleted`) as the options direct. At the end, POP
sends `finish` only when `:finish` is set, and IMAP always sends `close`.
With `:use_imap`, IMAP instead hands the open session to the named methods
and does nothing else.

The model has four modules:

- `Options` (options.dfy): the options hash as a value (`FetchOptions`)
  and as the caller's mutable hash (class `OptionsHash`). It also holds
  `prepare_options` and Ruby's nil/false truthiness (`Truthy`). A method list
  is `MethodSpec`, a symbol or a nested array, and `[x].flatten` is
  `Flatten`.
- `Cycle` (cycle.dfy): everything a handler does, written as a trace of
  `Event`s. The trace covers session steps (connect, examine, search,
  retrieve, delete or flag, finish, close) and the calls made on the mailer
  class (`Invoke`). This module also holds:
  - the guard `CheckMailer`;
  - the two guarded delete statements (`DeleteRequests`);
  - the loop as a function over the first `n` messages (`Run`);
  - the whole cycles `PopCycle` and `ImapCycle`;
  - two views of a trace: the calls made (`Invocations`) and the message
    numbers a delete request was issued for (`DeletedNumbers`).

  The mailer class is a `Consumer`: the set of class methods it responds to.
  A `send` of any other name raises `NoMethodError` and ends the cycle.
- `CycleProperties` (cycle_lemmas.dfy): what a cycle promises, proved about
  those traces.
- `MailFetcher` (fetcher.dfy): the imperative part.
  - Class `Mailbox` holds the enumerated messages and the trace recorded so
    far.
  - Class `Fetcher` holds the class-level attributes `mailer_class`,
    `config` and `access`.
  - `FetchPop` and `FetchImap` share the message loop `Loop`, a `while`
    loop. Each handler is proved to append exactly the trace of its cycle
    function, and `Fetch` is proved to run the handler `access` names.

Where the code and its documentation differ, the model follows the code:

- The interface check fires for a method list of exactly one entry, whatever
  its name. It then asks whether the class responds to `receive`, not to that
  name.
- Options are prepared before they are validated, so a missing
  `:mailer_methods` has become `:receive` by the time the check runs.
- IMAP opens INBOX with `EXAMINE`, a read-only selection, and then issues
  `STORE` and `CLOSE` on it.

## Model

| member | source | states |
|---|---|---|
| Options.Prepare | lib/mail_fetcher.rb:71-77 | the result is prepared: `:mailer_methods` is set (to `[:receive]` when missing), `:finish` is set (false when missing), and `:keep` is true whenever `:delete_if` is given; a supplied `:mailer_methods` or `:finish` is kept, `:keep` is left as supplied when there is no block, other keys are untouched, and preparing prepared options changes nothing |
| Options.OptionsHash.PrepareOptions | lib/mail_fetcher.rb:71-77 | the caller's hash itself is updated to the prepared options, and its prepared value is returned |
| Cycle.CheckMailer | lib/mail_fetcher.rb:66-69 | `NoMailerError` exactly when no mailer class is set; otherwise `MailerClassInterfaceError` exactly when the flattened list has one entry (a missing list counts as one) and the class lacks `receive`; no other outcome |
| Cycle.FirstUnsupported | lib/mail_fetcher.rb:40 | the position of the first method the class lacks: every earlier one is present, and the one there is missing |
| Cycle.Dispatch | lib/mail_fetcher.rb:40 | sending to each method in list order raises exactly when some method is missing; it raises at the first missing method, after calling exactly the methods before it in the list; when nothing raises, every method is called once, in order, with the same payload |
| CycleProperties.DeleteRequestsDecision | lib/mail_fetcher.rb:41-42 | the two delete statements (and the two `STORE` statements at lines 58-59) issue a request for a message exactly when the block matches it or `:keep` is falsy; on prepared options they issue at most one, and the block alone decides when one is given; on unprepared options a matching block with `:keep` unset issues two |
| CycleProperties.HandleMessageViews | lib/mail_fetcher.rb:39-42 | one iteration with every method present does not raise and is exactly: retrieve the message, call each method in list order with it, then issue the two guarded delete requests; so it requests deletion of that message exactly when `ShouldDelete` selects it (the documented policy on prepared options), at most once on prepared options |
| CycleProperties.RunViews | lib/mail_fetcher.rb:38-43 | a loop whose methods all exist never raises; its calls are every method in list order for each message in enumeration order; it requests deletion of exactly the messages `ShouldDelete` selects (the documented policy on prepared options); on prepared options each number appears at most once, in increasing order |
| CycleProperties.RunOrder | lib/mail_fetcher.rb:38-43 | messages are handled one at a time: whenever a delete request for message `i` is issued, the calls made so far are exactly every method for messages 1 to `i`, so each message's calls come before its delete request and no later message has been dispatched yet |
| CycleProperties.RunFailureSticks | lib/mail_fetcher.rb:38-43 | once a `send` raises, no later message is handled |
| CycleProperties.RunStopsAtFirstMessage | lib/mail_fetcher.rb:38-40 | a missing method raises on the first message, after the calls before it in the list and before any delete request |
| CycleProperties.KeepingKeepsAll | lib/mail_fetcher.rb:16-17 | with `:keep => true` and no block, no message is deleted |
| CycleProperties.DefaultDeletesAll | lib/mail_fetcher.rb:42 | with `:keep` unset or false, every message is deleted |
| CycleProperties.BlockAloneDecides | lib/mail_fetcher.rb:18-19 | on prepared options with a block, exactly the messages the block does not match remain |
| CycleProperties.CycleOutcome | lib/mail_fetcher.rb:34-63 | a POP cycle or a default IMAP cycle whose methods all exist completes; it makes every call in order and requests deletion of exactly the messages `ShouldDelete` selects (the documented policy on prepared options), at most once each when prepared; a server that honours the requests keeps exactly the messages `ShouldDelete` does not select, in order |
| CycleProperties.CycleOrder | lib/mail_fetcher.rb:34-63 | the same per-message order holds for a whole POP cycle or default IMAP cycle whose methods all exist: the session steps around the loop add no call and no delete request |
| CycleProperties.NextCycleSeesKept | spec/models/mail_fetcher_spec.rb:78-100 | the next cycle receives what the previous one kept: everything again after `:keep => true`, nothing after a default cycle, and only the unmatched messages after a cycle with a block (the IMAP tests at lines 126-148 are the same) |
| CycleProperties.Teardown | lib/mail_fetcher.rb:44-61 | the teardown follows the cycle's own outcome, whatever methods are configured: POP sends `finish` exactly when the loop completed and `:finish` is true, then as its last step, and never `close`; a default IMAP cycle sends `close` exactly when the loop completed, once and as its last step, and never `finish`; a loop that raised sends neither |
| CycleProperties.LiveSessionHandsOver | lib/mail_fetcher.rb:51-52 | with `:use_imap` the session goes to each named method once, in order; there is no examine, search, retrieval, mail dispatch, flag or `close` |
| CycleProperties.LiveSessionAborts | lib/mail_fetcher.rb:51-52 | with `:use_imap` and a named method the class lacks, the cycle raises at the first missing one after handing the session to exactly the methods before it; nothing is flagged, and no examine, search, retrieval or `close` is sent |
| CycleProperties.EmptyMailboxCycle | lib/mail_fetcher.rb:38-61 | a cycle over an empty mailbox makes no call and no delete request, so it completes whatever methods are configured; its trace is the opening followed by the teardown (`finish` when `:finish` is true for POP, `close` for IMAP) |
| CycleProperties.MissingMethodAborts | lib/mail_fetcher.rb:40 | a method the class lacks aborts a non-empty cycle on the first message: the calls before it are made, nothing is deleted, and neither `finish` nor `close` is sent |
| CycleProperties.NarrowInterfaceCheck | lib/mail_fetcher.rb:68 | a single method the class lacks passes the check when the class has `receive`, and the cycle then raises on it; lists of any other length pass the check even when the class responds to nothing |
| CycleProperties.DefaultCheckGuardsDispatch | lib/mail_fetcher.rb:73 | with the default method list, a class that passes the check responds to every configured method, so the default cycle cannot raise |
| MailFetcher.Mailbox.Send | lib/mail_fetcher.rb:40 | the loop over the method list appends exactly the calls `Dispatch` makes and raises with the method it names |
| MailFetcher.Handle | lib/mail_fetcher.rb:39-42 | one message: retrieve, send to each method, then the two guarded delete requests, matching `HandleMessage` |
| MailFetcher.Iterate | lib/mail_fetcher.rb:38-43 | iteration `n` extends the trace of the first `n - 1` iterations to that of the first `n` |
| MailFetcher.Loop | lib/mail_fetcher.rb:38-43 | the message loop appends exactly the trace of `Run` over every message, stopping where a `send` raised |
| MailFetcher.Fetcher.FetchPop | lib/mail_fetcher.rb:34-45 | `fetch_pop` appends exactly the trace of `PopCycle` and raises exactly when it does |
| MailFetcher.Fetcher.FetchImap | lib/mail_fetcher.rb:47-63 | `fetch_imap` appends exactly the trace of `ImapCycle`, in both modes, and raises exactly when it does |
| MailFetcher.Fetcher.Fetch | lib/mail_fetcher.rb:27-32 | the caller's options are prepared in place; a failed check raises before any configuration is loaded or session opened; otherwise the configuration is loaded only when unset, from the section `:env` or `RAILS_ENV` names; the handler `access` names runs (IMAP when unset), and an unknown `access` raises `NoMethodError` |

## Left out

- Network sessions are not modelled: SSL setup, connecting and login (lib/mail_fetcher.rb:35-36, 48-49) are reduced to one `Connect` event. Transport errors and refused logins are not modelled.
- Message parsing with `TMail::Mail.parse` is not modelled. A message is an opaque value, and `:delete_if` is an arbitrary function on it.
- Reading `config/mail_fetcher.yml` is not modelled. The loader is the parameter `load` of `Fetch`, and `RAILS_ENV` is the parameter `railsEnv`. A missing configuration section is not modelled either.
- Turning the stored class name into a class (`classify.constantize`, lib/mail_fetcher.rb:10) is not modelled. The mailer class is given directly as the set of methods it responds to.
- What the mailer class does with a message is not modelled. A call is recorded in the trace and never fails when the method exists.
- Server behaviour is not modelled. The trace shows which delete and flag requests are issued. `Survivors` assumes a server that honours them. That assumption goes beyond the protocols:
  - per section 6.3.2 of RFC 3501, a folder opened with `EXAMINE` is read-only, so the `STORE` requests may be refused and `CLOSE` does not expunge;
  - per section 6 of RFC 1939, POP deletions take effect only at `QUIT`, which `finish` sends.
  - A server may also refuse a request outright, and the Ruby client libraries then raise. Net::IMAP raises `NoResponseError` on a `NO` reply, so a server that enforces the read-only `EXAMINE` would make the first `STORE` raise, and `close` would never be sent. Net::POP3 raises on an `-ERR` reply, which a second `DELE` of the same message draws (the two requests of `DeleteRequestsDecision` on unprepared options). The model records such a request as issued and goes on.
  - Hence `failure.None?` in `CycleOutcome` holds for a server that accepts every request, and `Survivors` is what such a server keeps.
  - The Net::POP3 and Net::IMAP libraries are not part of this model.
- The Gmail reason for making `finish` optional (lib/mail_fetcher.rb:21-23) is not modelled.
- The error messages of `NoMailerError` and `MailerClassInterfaceError` (lib/mail_fetcher.rb:80-90) are not modelled. Only the error kinds are.
- Return values are not modelled: `fetch` returns whatever the handler's last statement returns, and the model only records whether the handler raised.
- MailFetcher.Fetcher.FetchPop: requires a loaded configuration, a mailer class and a `:mailer_methods` value, as `fetch` guarantees. The Ruby method can also be called directly without them, and the model does not cover that call. There, a `nil` configuration raises at once, when the server is looked up. A `nil` mailer class or a `nil` method list raises only when a message is handled (the `send` at line 40), so over an empty mailbox the Ruby method completes.
- MailFetcher.Fetcher.FetchImap: the same requirements and the same gap as `FetchPop` (lines 48 and 57).
- `nil` or `false` entries inside a method list are not modelled; a list holds method names only.
- `Consumer.responds` stands for both `respond_to?` in the interface check (line 68) and `send` in dispatch (lines 40, 52). Ruby's `respond_to?` sees public methods only, while `send` also reaches private and protected ones. So a class whose `receive` is private fails the Ruby check although `send` would succeed; the model cannot express such a class.
- `:keep` and `:finish` are `Option<bool>`. Ruby tests any value for truthiness, so `:keep => 1` or `:finish => "yes"` act as true there; the model can only hold `true` or `false`.
- Setting the class attributes (`attr_accessor`, lib/mail_fetcher.rb:7) is not modelled. It is plain assignment to the fields of `Fetcher`.
