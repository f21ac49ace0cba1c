/** The per-call options hash of `MailFetcher.fetch` and its preparation
    (`prepare_options`), with Ruby's nil/false truthiness written out. */
module Options {

  datatype Option<T> = None | Some(value: T)

  /** A fetched e-mail, opaque to the fetcher: it is only passed through. */
  datatype Message = Message(raw: string)

  /** The name of a method the mailer class is asked to run (a Ruby symbol). */
  type MethodName = string

  /** The value of `:mailer_methods` or `:use_imap`: one symbol, or an array
      of them that may itself hold arrays. */
  datatype MethodSpec = One(name: MethodName) | Many(items: seq<MethodSpec>)

  /** `[spec].flatten`: the method names in order, with nesting removed. */
  function Flatten(s: MethodSpec): (r: seq<MethodName>)
    decreases s
  {
    match s
    case One(n) => [n]
    case Many(items) => FlattenAll(items)
  }

  function FlattenAll(xs: seq<MethodSpec>): (r: seq<MethodName>)
    decreases xs
  {
    if xs == [] then [] else Flatten(xs[0]) + FlattenAll(xs[1..])
  }

  /** The recognised keys of the options hash; an absent key is `None`. */
  datatype FetchOptions = FetchOptions(
    mailerMethods: Option<MethodSpec>,   // :mailer_methods
    keep: Option<bool>,                  // :keep
    deleteIf: Option<Message -> bool>,   // :delete_if, a block run on each e-mail
    env: Option<string>,                 // :env, the configuration section to load
    finish: Option<bool>,                // :finish, POP only
    useImap: Option<MethodSpec>)         // :use_imap, IMAP only

  /** Ruby truthiness of an optional flag: nil and false are both false. */
  predicate Truthy(b: Option<bool>)
  {
    b == Some(true)
  }

  /** What `prepare_options` guarantees of the hash it returns. */
  predicate IsPrepared(o: FetchOptions)
  {
    && o.mailerMethods.Some?
    && o.finish.Some?
    && (o.deleteIf.Some? ==> o.keep == Some(true))
  }

  /** `prepare_options`: default `:mailer_methods` to `:receive` and
      `:finish` to false, and force `:keep` when `:delete_if` is given. */
  function Prepare(o: FetchOptions): (p: FetchOptions)
    ensures IsPrepared(p)
    ensures IsPrepared(o) ==> p == o
    ensures p.deleteIf == o.deleteIf && p.env == o.env && p.useImap == o.useImap
    ensures o.mailerMethods.Some? ==> p.mailerMethods == o.mailerMethods
    ensures o.mailerMethods.None? ==> Flatten(p.mailerMethods.value) == ["receive"]
    ensures o.finish.Some? ==> p.finish == o.finish
    ensures Truthy(p.finish) == Truthy(o.finish)
    ensures o.deleteIf.None? ==> p.keep == o.keep
    ensures o.deleteIf.Some? ==> Truthy(p.keep)
  {
    o.(mailerMethods := if o.mailerMethods.Some? then o.mailerMethods else Some(One("receive")),
       keep := if o.deleteIf.Some? then Some(true) else o.keep,
       finish := if o.finish.Some? then o.finish else Some(false))
  }

  /** The caller's options hash, which `prepare_options` changes in place. */
  class OptionsHash {
    var mailerMethods: Option<MethodSpec>
    var keep: Option<bool>
    var deleteIf: Option<Message -> bool>
    var env: Option<string>
    var finish: Option<bool>
    var useImap: Option<MethodSpec>

    function Value(): FetchOptions
      reads this
    {
      FetchOptions(mailerMethods, keep, deleteIf, env, finish, useImap)
    }

    constructor (o: FetchOptions)
      ensures Value() == o
    {
      mailerMethods, keep, deleteIf := o.mailerMethods, o.keep, o.deleteIf;
      env, finish, useImap := o.env, o.finish, o.useImap;
    }

    /** Each `||=` and the forced `keep` are assignments to the hash itself;
        the prepared value of the hash is returned. */
    method PrepareOptions() returns (p: FetchOptions)
      modifies this
      ensures Value() == Prepare(old(Value()))
      ensures p == Value()
    {
      if mailerMethods.None? {
        mailerMethods := Some(One("receive"));
      }
      if deleteIf.Some? {
        keep := Some(true);
      }
      if finish.None? {
        finish := Some(false);
      }
      p := Value();
    }
  }
}
