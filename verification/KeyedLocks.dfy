// Reference-counted locks by key, and the order in which a send takes two of them.
module KeyedLocks {
  import opened Common

  datatype Stage = Waiting | Inside | Leaving
  /** A thread between entering and leaving a scoped lock, and the entry object it found. */
  datatype Scope = Scope(key: string, entry: nat, stage: Stage)
  /** A registry entry: its re-entrant lock's owner and its reference count. */
  datatype Entry = Entry(owner: Option<nat>, references: int)

  function Users(scopes: map<nat, Scope>, key: string): set<nat> {
    set t | t in scopes && scopes[t].key == key
  }

  ghost predicate KeyValid(table: map<string, nat>, entries: map<nat, Entry>, scopes: map<nat, Scope>, k: string) {
    var users := Users(scopes, k);
    if k !in table then users == {}
    else
      && users != {} && table[k] in entries && entries[table[k]].references == |users|
      && forall t :: entries[table[k]].owner == Some(t) <==> t in users && scopes[t].stage == Inside
  }

  lemma UsersChange(scopes: map<nat, Scope>, t: nat, to: Scope, k: string)
    ensures t !in scopes ==> Users(scopes[t := to], k) == (if k == to.key then Users(scopes, k) + {t} else Users(scopes, k))
    ensures t in scopes && scopes[t].key == to.key ==> Users(scopes[t := to], k) == Users(scopes, k)
    ensures t in scopes && scopes[t].key == to.key ==>
      Users(scopes - {t}, k) == (if k == to.key then Users(scopes, k) - {t} else Users(scopes, k))
  {
  }

  ghost predicate Injective(table: map<string, nat>) {
    forall j, k :: j in table && k in table && table[j] == table[k] ==> j == k
  }

  /** Counting one more user of key keeps that key valid. */
  lemma EnterKey(table: map<string, nat>, entries: map<nat, Entry>, scopes: map<nat, Scope>, t: nat, key: string,
                 entry: nat)
    requires KeyValid(table, entries, scopes, key) && t !in scopes
    requires key in table ==> entry == table[key]
    ensures var was := if key in table then entries[entry] else Entry(None, 0);
      KeyValid(table[key := entry], entries[entry := was.(references := was.references + 1)],
               scopes[t := Scope(key, entry, Waiting)], key)
  {
    var users := Users(scopes, key);
    UsersChange(scopes, t, Scope(key, entry, Waiting), key);
    assert t !in users;
    assert |users + {t}| == |users| + 1;
  }

  /** Changing the entry of one key does not disturb another key. */
  lemma OtherKey(table: map<string, nat>, entries: map<nat, Entry>, scopes: map<nat, Scope>, k: string,
                 table': map<string, nat>, entries': map<nat, Entry>, scopes': map<nat, Scope>, entry: nat)
    requires KeyValid(table, entries, scopes, k) && Users(scopes', k) == Users(scopes, k)
    requires forall t :: t in scopes && scopes[t].key == k ==> t in scopes' && scopes'[t] == scopes[t]
    requires (k in table' <==> k in table) && (k in table ==> table'[k] == table[k] != entry)
    requires forall e :: e in entries && e != entry ==> e in entries' && entries'[e] == entries[e]
    ensures KeyValid(table', entries', scopes', k)
  {
  }

  /** Counting one user less, and dropping the entry at zero, leaves every key valid. */
  lemma LeaveKey(table: map<string, nat>, entries: map<nat, Entry>, scopes: map<nat, Scope>, t: nat, key: string,
                 k: string)
    requires KeyValid(table, entries, scopes, k) && KeyValid(table, entries, scopes, key) && Injective(table)
    requires t in scopes && scopes[t].key == key && scopes[t].stage == Leaving && key in table
    requires forall j :: j in table ==> table[j] in entries
    ensures var e := entries[table[key]];
      KeyValid(if e.references == 1 then table - {key} else table,
               entries[table[key] := e.(references := e.references - 1)], scopes - {t}, k)
  {
    UsersChange(scopes, t, scopes[t], k);
    if k == key {
      assert t in Users(scopes, k);
      assert |Users(scopes, k) - {t}| == |Users(scopes, k)| - 1;
    }
  }

  predicate Free(scopes: map<nat, Scope>, key: string) {
    forall u :: u in scopes && scopes[u].key == key ==> scopes[u].stage != Inside
  }

  /** One step of thread t through one scoped lock; only taking a lock that is not free blocks. */
  ghost predicate Moves(a: map<nat, Scope>, b: map<nat, Scope>, t: nat) {
    if t !in a then t in b && b[t].stage == Waiting && b == a[t := b[t]]
    else match a[t].stage
      case Waiting => Free(a, a[t].key) && b == a[t := a[t].(stage := Inside)]
      case Inside => b == a[t := a[t].(stage := Leaving)]
      case Leaving => b == a - {t}
  }

  class LockRegistry {
    var table: map<string, nat>     // key to the identity of its entry
    var entries: map<nat, Entry>    // every entry object ever made
    var scopes: map<nat, Scope>     // where each thread stands

    /**
     * A key has an entry exactly while it has users, they all share that entry,
     * its count is their number, and its lock is owned by the one inside.
     */
    ghost predicate Valid()
      reads this
    {
      && (forall k :: KeyValid(table, entries, scopes, k))
      && (forall k :: k in table ==> table[k] in entries)
      && Injective(table)
      && (forall t :: t in scopes ==> scopes[t].key in table && scopes[t].entry == table[scopes[t].key])
    }

    constructor ()
      ensures Valid() && scopes == map[]
    {
      table, entries, scopes := map[], map[], map[];
    }

    /** Under the registry's own lock: find or make the entry and count one more user. */
    method Enter(t: nat, key: string, identity: nat) returns (entry: nat)
      requires Valid() && t !in scopes && identity !in entries
      modifies this
      ensures Valid() && scopes == old(scopes)[t := Scope(key, entry, Waiting)]
      ensures entry == (if key in old(table) then old(table)[key] else identity) && Moves(old(scopes), scopes, t)
    {
      hide Users;
      assert KeyValid(table, entries, scopes, key);
      if key !in table {
        table := table[key := identity];
        entries := entries[identity := Entry(None, 0)];
      }
      entry := table[key];
      entries := entries[entry := entries[entry].(references := entries[entry].references + 1)];
      ghost var before := scopes;
      scopes := scopes[t := Scope(key, entry, Waiting)];
      assert table == old(table)[key := entry];
      forall k ensures KeyValid(table, entries, scopes, k) {
        assert KeyValid(old(table), old(entries), before, k);
        if k == key {
          EnterKey(old(table), old(entries), before, t, key, entry);
        } else {
          UsersChange(before, t, scopes[t], k);
          OtherKey(old(table), old(entries), before, k, table, entries, scopes, entry);
        }
      }
    }

    /** Take the lock if it is free; otherwise the thread keeps waiting. */
    method Acquire(t: nat, entry: nat) returns (ok: bool)
      requires Valid() && t in scopes && scopes[t] == Scope(scopes[t].key, entry, Waiting)
      modifies this
      ensures Valid() && scopes == if ok then old(scopes)[t := old(scopes[t]).(stage := Inside)] else old(scopes)
      ensures (ok <==> Free(old(scopes), old(scopes)[t].key)) && (ok ==> Moves(old(scopes), scopes, t))
    {
      ghost var before := scopes;
      ok := entries[entry].owner == None;
      if ok {
        entries := entries[entry := entries[entry].(owner := Some(t))];
        scopes := scopes[t := scopes[t].(stage := Inside)];
        forall k ensures KeyValid(table, entries, scopes, k) {
          assert KeyValid(old(table), old(entries), before, k);
          UsersChange(before, t, scopes[t], k);
        }
      }
      assert KeyValid(old(table), old(entries), before, before[t].key);
    }

    method Release(t: nat, entry: nat)
      requires Valid() && t in scopes && scopes[t] == Scope(scopes[t].key, entry, Inside)
      modifies this
      ensures Valid() && scopes == old(scopes)[t := old(scopes[t]).(stage := Leaving)] && Moves(old(scopes), scopes, t)
    {
      ghost var before := scopes;
      assert KeyValid(table, entries, scopes, scopes[t].key);
      entries := entries[entry := entries[entry].(owner := None)];
      scopes := scopes[t := scopes[t].(stage := Leaving)];
      forall k ensures KeyValid(table, entries, scopes, k) {
        assert KeyValid(old(table), old(entries), before, k);
        UsersChange(before, t, scopes[t], k);
      }
    }

    /** Count one user less; the last one out removes the entry. */
    method Leave(t: nat, key: string, entry: nat)
      requires Valid() && t in scopes && scopes[t] == Scope(key, entry, Leaving)
      modifies this
      ensures Valid() && scopes == old(scopes) - {t} && Moves(old(scopes), scopes, t)
      ensures key in table <==> exists u :: u in scopes && scopes[u].key == key
    {
      hide Users;
      ghost var before := scopes;
      assert KeyValid(table, entries, scopes, key);
      entries := entries[entry := entries[entry].(references := entries[entry].references - 1)];
      scopes := scopes - {t};
      if entries[entry].references == 0 && key in table && table[key] == entry {
        table := table - {key};
      }
      forall k ensures KeyValid(table, entries, scopes, k) {
        assert KeyValid(old(table), old(entries), before, k);
        LeaveKey(old(table), old(entries), before, t, key, k);
      }
      assert KeyValid(table, entries, scopes, key);
      UsersAre(scopes, key);
    }
  }

  /** The next step of a thread on its way through a scoped lock; only a lock that is not free holds it up. */
  method Advance(r: LockRegistry, t: nat) returns (moved: bool)
    requires r.Valid() && t in r.scopes
    modifies r
    ensures r.Valid()
    ensures moved <==> old(r.scopes)[t].stage != Waiting || Free(old(r.scopes), old(r.scopes)[t].key)
    ensures if moved then Moves(old(r.scopes), r.scopes, t) else r.scopes == old(r.scopes)
  {
    hide KeyValid, Users, Injective, Free;
    var scope := r.scopes[t];
    moved := true;
    match scope.stage {
      case Waiting => moved := r.Acquire(t, scope.entry);
      case Inside => r.Release(t, scope.entry);
      case Leaving => r.Leave(t, scope.key, scope.entry);
    }
  }

  lemma UsersAre(scopes: map<nat, Scope>, key: string)
    ensures Users(scopes, key) != {} <==> exists u :: u in scopes && scopes[u].key == key
  {
    assert forall u :: u in Users(scopes, key) <==> u in scopes && scopes[u].key == key;
  }

  /** Bodies guarded by one key never overlap, and all its users hold the same entry. */
  lemma BodiesNeverOverlap(r: LockRegistry, t: nat, u: nat)
    requires r.Valid() && t in r.scopes && u in r.scopes && r.scopes[t].key == r.scopes[u].key
    ensures r.scopes[t].entry == r.scopes[u].entry
    ensures r.scopes[t].stage == Inside && r.scopes[u].stage == Inside ==> t == u
  {
    assert KeyValid(r.table, r.entries, r.scopes, r.scopes[t].key);
  }

  // ---------------------------------------------------------------- two locks per send

  /** A send enters the message scope only while it is inside its session scope. */
  ghost predicate SessionFirst(sessions: map<nat, Scope>, messages: map<nat, Scope>) {
    forall t :: t in messages ==> t in sessions && sessions[t].stage == Inside
  }

  /** One step of a send: within its message scope once inside its session scope, else in the session scope. */
  ghost predicate SendMoves(sessions: map<nat, Scope>, messages: map<nat, Scope>,
                            sessions': map<nat, Scope>, messages': map<nat, Scope>, t: nat) {
    || (sessions' == sessions && t in sessions && sessions[t].stage == Inside && Moves(messages, messages', t))
    || (messages' == messages && t !in messages && Moves(sessions, sessions', t))
  }

  lemma OrderKept(sessions: map<nat, Scope>, messages: map<nat, Scope>,
                  sessions': map<nat, Scope>, messages': map<nat, Scope>, t: nat)
    requires SessionFirst(sessions, messages) && SendMoves(sessions, messages, sessions', messages', t)
    ensures SessionFirst(sessions', messages')
  {
  }

  /** The next step of a send is not held up by a lock. */
  predicate CanMove(sessions: map<nat, Scope>, messages: map<nat, Scope>, t: nat)
    requires t in sessions
  {
    var scopes := if t in messages then messages else sessions;
    scopes[t].stage != Waiting || Free(scopes, scopes[t].key)
  }

  /** While any send is under way, one of them can move. */
  lemma NoDeadlock(sessions: map<nat, Scope>, messages: map<nat, Scope>) returns (mover: nat)
    requires SessionFirst(sessions, messages) && sessions != map[]
    ensures mover in sessions
    ensures CanMove(sessions, messages, mover)
  {
    if t :| t in messages && messages[t].stage != Waiting {
      mover := t;
    } else if t :| t in messages {
      mover := t;
    } else if t :| t in sessions && sessions[t].stage != Waiting {
      mover := t;
    } else {
      mover :| mover in sessions;
    }
  }

  /**
   * Session before message admits no deadlock in the two registries: while any send is under
   * way one of them takes a step, and the order and both registries stay sound.
   */
  method SomeoneMoves(sessions: LockRegistry, messages: LockRegistry) returns (mover: nat)
    requires sessions != messages && sessions.Valid() && messages.Valid()
    requires SessionFirst(sessions.scopes, messages.scopes) && sessions.scopes != map[]
    modifies sessions, messages
    ensures sessions.Valid() && messages.Valid() && mover in old(sessions.scopes)
    ensures SendMoves(old(sessions.scopes), old(messages.scopes), sessions.scopes, messages.scopes, mover)
    ensures SessionFirst(sessions.scopes, messages.scopes)
  {
    hide KeyValid, Users, Injective;
    ghost var candidate := NoDeadlock(sessions.scopes, messages.scopes);
    mover :| mover in sessions.scopes && CanMove(sessions.scopes, messages.scopes, mover);
    ghost var s, m := sessions.scopes, messages.scopes;
    assert CanMove(s, m, mover);
    if mover in messages.scopes {
      assert m[mover].stage != Waiting || Free(m, m[mover].key);
      var _ := Advance(messages, mover);
    } else {
      assert s[mover].stage != Waiting || Free(s, s[mover].key);
      var _ := Advance(sessions, mover);
    }
    OrderKept(s, m, sessions.scopes, messages.scopes, mover);
  }
}
