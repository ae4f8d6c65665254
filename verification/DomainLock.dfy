/**
 The Redis lock of one domain: SET NX PX with a fresh token, and compare-and-delete by token.
 Times are in milliseconds. The key-value server is `store`; a key whose time has passed counts as absent.
 */
module DomainLock {
  import opened Records

  const TTL_MILLIS: int := 60 * 1000

  datatype Entry = Entry(token: nat, expiresAt: int)

  predicate LiveAt(e: Option<Entry>, now: int) {
    e.Some? && now < e.value.expiresAt
  }

  /** The key after SET NX PX; the command answers OK exactly when there was no live entry. */
  function AfterSetNx(e: Option<Entry>, token: nat, now: int): Option<Entry> {
    if LiveAt(e, now) then e else Some(Entry(token, now + TTL_MILLIS))
  }

  /** The key after the compare-and-delete script. */
  function AfterRelease(e: Option<Entry>, token: nat, now: int): Option<Entry> {
    if LiveAt(e, now) && e.value.token == token then None else e
  }

  function LockKey(domain: string): string {
    "lock:domain:" + domain
  }

  lemma LockKeysDiffer(a: string, b: string)
    ensures LockKey(a) == LockKey(b) <==> a == b
  {
    assert LockKey(a)[12..] == a && LockKey(b)[12..] == b;
  }

  datatype LockContext = LockContext(domain: string, token: Option<nat>, acquired: bool, failed: bool) {
    predicate IsAcquired() {
      acquired && token.Some?
    }
  }

  /** How a command fares: executed and answered, executed with the answer lost, or never executed. */
  datatype Reply = Answered | AnswerLost | Unreachable

  class Lock {
    var store: map<string, Entry>
    var connected: bool

    constructor ()
      ensures store == map[] && !connected
    {
      store := map[];
      connected := false;
    }

    ghost function EntryFor(domain: string): Option<Entry>
      reads this
    {
      if LockKey(domain) in store then Some(store[LockKey(domain)]) else None
    }

    method Connect()
      modifies this`connected
      ensures connected
    {
      if !connected {
        connected := true;
      }
    }

    /** Entering the lock's context: acquired exactly when OK was received; only this domain's key can change. */
    method Acquire(domain: string, token: nat, now: int, reply: Reply) returns (ctx: LockContext)
      modifies this
      ensures connected
      ensures ctx.IsAcquired() <==> reply.Answered? && !LiveAt(old(EntryFor(domain)), now)
      ensures ctx.IsAcquired() ==> ctx.token == Some(token) && EntryFor(domain) == Some(Entry(token, now + TTL_MILLIS))
      ensures ctx.failed <==> !reply.Answered?
      ensures !LiveAt(old(EntryFor(domain)), now) && !reply.Unreachable? ==>
                EntryFor(domain) == Some(Entry(token, now + 60000))
      ensures LiveAt(old(EntryFor(domain)), now) ==> EntryFor(domain) == old(EntryFor(domain))
      ensures EntryFor(domain)
           == if reply.Unreachable? then old(EntryFor(domain)) else AfterSetNx(old(EntryFor(domain)), token, now)
      ensures forall other :: other != domain ==> EntryFor(other) == old(EntryFor(other))
    {
      if !connected {
        Connect();
      }
      var key := LockKey(domain);
      var acquired := false;
      if !reply.Unreachable? {
        if key !in store || store[key].expiresAt <= now {
          store := store[key := Entry(token, now + TTL_MILLIS)];
          acquired := true;
        }
      }
      forall other | other != domain ensures EntryFor(other) == old(EntryFor(other)) {
        LockKeysDiffer(other, domain);
      }
      if !reply.Answered? {
        ctx := LockContext(domain, None, false, true);
      } else if acquired {
        ctx := LockContext(domain, Some(token), true, false);
      } else {
        ctx := LockContext(domain, None, false, false);
      }
    }

    /** True exactly when this call is known to have deleted its own live key; no other key is ever touched. */
    method Release(domain: string, token: nat, now: int, reply: Reply) returns (released: bool)
      modifies this`store
      ensures released <==> old(connected) && reply.Answered?
                            && LiveAt(old(EntryFor(domain)), now) && old(EntryFor(domain)).value.token == token
      ensures old(connected) && !reply.Unreachable?
              && LiveAt(old(EntryFor(domain)), now) && old(EntryFor(domain)).value.token == token ==>
                EntryFor(domain) == None
      ensures !(old(connected) && LiveAt(old(EntryFor(domain)), now) && old(EntryFor(domain)).value.token == token) ==>
                EntryFor(domain) == old(EntryFor(domain))
      ensures EntryFor(domain) == if old(connected) && !reply.Unreachable?
                                  then AfterRelease(old(EntryFor(domain)), token, now) else old(EntryFor(domain))
      ensures forall other :: other != domain ==> EntryFor(other) == old(EntryFor(other))
    {
      if !connected {
        return false;
      }
      var key := LockKey(domain);
      var deleted := false;
      if !reply.Unreachable? && key in store && now < store[key].expiresAt && store[key].token == token {
        store := store - {key};
        deleted := true;
      }
      forall other | other != domain ensures EntryFor(other) == old(EntryFor(other)) {
        LockKeysDiffer(other, domain);
      }
      released := deleted && reply.Answered?;
    }
  }
}
