/**
 The three session managers as objects updated in place: `MemoryManager` (apps/runtime/memory.py),
 `PiAgentSessionManager` (apps/runtime/piagent_client.py) and `SidecarSessionManager`
 (apps/runtime/sidecar/src/session-manager.ts), proved against `Lru`, `Conversation` and `SidecarPool`.
 */
module SessionManagers {
  import opened Wrappers
  import Lru
  import Conversation
  import SidecarPool

  class SessionContext {
    const sessionId: string
    var messages: seq<Conversation.Message>
    var messageCount: nat
    var lastActiveAt: int   // in seconds

    constructor (sessionId: string, now: int)
      ensures this.sessionId == sessionId && messages == [] && messageCount == 0 && lastActiveAt == now
    {
      this.sessionId := sessionId;
      messages, messageCount, lastActiveAt := [], 0, now;
    }

    method AddMessage(role: string, content: string, now: int)
      modifies this
      ensures messages == old(messages) + [Conversation.Said(role, content)]
      ensures messageCount == old(messageCount) + 1 && lastActiveAt == now
    {
      messages := messages + [Conversation.Said(role, content)];
      messageCount := messageCount + 1;
      lastActiveAt := now;
    }
  }

  class MemoryManager {
    const maxSessions: nat
    const compressionThreshold: nat
    const maxRecentMessages: nat
    var order: seq<string>                    // the keys of the OrderedDict, oldest first
    var sessions: map<string, SessionContext>

    constructor (maxSessions: nat, compressionThreshold: nat, maxRecentMessages: nat)
      requires maxSessions >= 1
      ensures Valid() && order == [] && this.maxSessions == maxSessions
      ensures this.compressionThreshold == compressionThreshold && this.maxRecentMessages == maxRecentMessages
    {
      this.maxSessions := maxSessions;
      this.compressionThreshold := compressionThreshold;
      this.maxRecentMessages := maxRecentMessages;
      order, sessions := [], map[];
    }

    ghost predicate Valid()
      reads this
    {
      && maxSessions >= 1
      && Lru.CacheOk(order, maxSessions)
      && (forall k :: k in order <==> k in sessions)
      && (forall a, b :: a in sessions && b in sessions && a != b ==> sessions[a] != sessions[b])
    }

    ghost function Objects(): set<SessionContext>
      reads this
    {
      set k | k in sessions :: sessions[k]
    }

    method Compress(ctx: SessionContext)
      modifies ctx`messages
      ensures ctx.messages == Conversation.Compress(old(ctx.messages), maxRecentMessages)
    {
      if |ctx.messages| <= maxRecentMessages {
        return;
      }
      var systemMessages := Conversation.Systems(ctx.messages);
      var otherMessages := Conversation.Others(ctx.messages);
      var recent := Conversation.Recent(otherMessages, maxRecentMessages);
      var older := Conversation.Older(otherMessages, maxRecentMessages);
      ctx.messages := systemMessages + Conversation.Summarize(older) + recent;
    }

    /** A hit returns the stored object, compressed if it got too long; a miss makes room and adds a fresh one. */
    method GetOrCreate(sessionId: string, now: int) returns (ctx: SessionContext)
      requires Valid()
      modifies this, Objects()
      ensures Valid() && order == Lru.Touch(old(order), sessionId, maxSessions)
      ensures sessionId in sessions && sessions[sessionId] == ctx
      ensures sessionId in old(sessions) ==>
                && ctx == old(sessions)[sessionId]
                && ctx.messages == Conversation.Kept(old(sessions[sessionId].messages), compressionThreshold,
                                                     maxRecentMessages)
                && ctx.lastActiveAt == old(sessions[sessionId].lastActiveAt)
                && ctx.messageCount == old(sessions[sessionId].messageCount)
      ensures sessionId !in old(sessions) ==>
                fresh(ctx) && ctx.messages == [] && ctx.messageCount == 0 && ctx.lastActiveAt == now
      ensures forall k :: k in sessions && k != sessionId ==> k in old(sessions) && sessions[k] == old(sessions)[k]
      ensures forall c :: c in old(Objects()) && c != ctx ==>
                && c.messages == old(c.messages) && c.messageCount == old(c.messageCount)
                && c.lastActiveAt == old(c.lastActiveAt)
    {
      hide Lru.Remove, Conversation.Compress, Lru.Distinct;
      Lru.RemoveFacts(order, sessionId);
      Lru.TouchKeepsOk(order, sessionId, maxSessions);
      if order != [] { Lru.TailOnly(order); }
      if sessionId in sessions {
        ctx := sessions[sessionId];
        order := Lru.Remove(order, sessionId) + [sessionId];
        if |ctx.messages| > compressionThreshold {
          Compress(ctx);
        }
        return;
      }
      if |order| >= maxSessions {
        var oldest := order[0];
        order := order[1..];
        sessions := sessions - {oldest};
      }
      ctx := new SessionContext(sessionId, now);
      order := order + [sessionId];
      sessions := sessions[sessionId := ctx];
    }

    method Delete(sessionId: string) returns (found: bool)
      requires Valid()
      modifies this
      ensures Valid() && order == Lru.Remove(old(order), sessionId)
      ensures sessions == old(sessions) - {sessionId}
      ensures found <==> sessionId in old(sessions)
    {
      hide Lru.Remove;
      Lru.RemoveFacts(order, sessionId);
      found := sessionId in sessions;
      order := Lru.Remove(order, sessionId);
      sessions := sessions - {sessionId};
    }

    predicate Expired(k: string, ttlHours: int, now: int)
      requires k in sessions
      reads this, sessions[k]
    {
      IdleTooLong(sessions[k].lastActiveAt, ttlHours, now)
    }

    /** Deletes exactly the sessions idle for longer than `ttlHours`, and says how many there were. */
    method CleanupExpired(ttlHours: int, now: int) returns (removed: nat)
      requires Valid()
      modifies this
      ensures Valid()
      ensures forall k :: k in sessions <==> k in old(sessions) && !old(Expired(k, ttlHours, now))
      ensures forall k :: k in sessions ==> sessions[k] == old(sessions)[k]
      ensures order == Lru.KeepOnly(old(order), sessions.Keys)
      ensures removed == |old(sessions)| - |sessions|
    {
      var expired := set k | k in sessions && Expired(k, ttlHours, now);
      removed := 0;
      var todo := expired;
      Lru.KeepAll(order, sessions.Keys);
      while todo != {}
        invariant Valid() && todo <= sessions.Keys && todo <= expired
        invariant forall k :: k in sessions <==> k in old(sessions) && (k in expired ==> k in todo)
        invariant forall k :: k in sessions ==> sessions[k] == old(sessions)[k]
        invariant order == Lru.KeepOnly(old(order), sessions.Keys)
        invariant removed + |sessions| == |old(sessions)|
        decreases todo
      {
        var key :| key in todo;
        SizeWithout(sessions, key);
        Lru.RemoveFromKept(old(order), sessions.Keys, key);
        assert (sessions - {key}).Keys == sessions.Keys - {key};
        var found := Delete(key);
        removed := removed + 1;
        todo := todo - {key};
      }
    }
  }

  predicate IdleTooLong(lastActiveAt: int, ttlHours: int, now: int) {
    now - lastActiveAt > ttlHours * 3600
  }

  /** An hour is 3600 seconds; a session is still kept at its limit, and dropped a second later and ever after. */
  lemma IdleBoundary(lastActiveAt: int, ttlHours: int, seconds: int)
    ensures !IdleTooLong(lastActiveAt, 0, lastActiveAt) && IdleTooLong(lastActiveAt, 0, lastActiveAt + 1)
    ensures !IdleTooLong(lastActiveAt, 1, lastActiveAt + 3600) && IdleTooLong(lastActiveAt, 1, lastActiveAt + 3601)
    ensures IdleTooLong(lastActiveAt, ttlHours + 1, lastActiveAt + seconds + 3600)
       <==> IdleTooLong(lastActiveAt, ttlHours, lastActiveAt + seconds)
  {
  }

  /** A session that is created, spoken to and cleaned up is there afterwards unless it was idle for too long. */
  method CreateSayCleanup(manager: MemoryManager, id: string, created: int, said: int, ttlHours: int, now: int)
    returns (kept: bool)
    requires manager.Valid() && id !in manager.sessions
    modifies manager, manager.Objects()
    ensures kept <==> now - said <= ttlHours * 3600
  {
    var ctx := manager.GetOrCreate(id, created);
    ctx.AddMessage("user", "hello", said);
    var removed := manager.CleanupExpired(ttlHours, now);
    kept := id in manager.sessions;
  }

  /** A visit does not count as activity: a session nobody speaks to is dropped by the time it was created. */
  method CreateVisitCleanup(manager: MemoryManager, id: string, created: int, visited: int, ttlHours: int, now: int)
    returns (kept: bool)
    requires manager.Valid() && id !in manager.sessions
    modifies manager, manager.Objects()
    ensures kept <==> now - created <= ttlHours * 3600
  {
    var ctx := manager.GetOrCreate(id, created);
    var again := manager.GetOrCreate(id, visited);
    var removed := manager.CleanupExpired(ttlHours, now);
    kept := id in manager.sessions;
  }

  lemma SizeWithout<V>(m: map<string, V>, k: string)
    requires k in m
    ensures |m - {k}| == |m| - 1
  {
    assert (m - {k}).Keys == m.Keys - {k};
  }

  // ---------- the agent pool ----------

  /** One `get_or_create` of the agent pool; the empty string is a call without a session id. */
  function PoolStep(keys: seq<string>, id: string, max: nat): seq<string> {
    if id != "" && id in keys then Lru.Remove(keys, id) + [id]
    else
      var room := if |keys| >= max && keys != [] then keys[1..] else keys;
      if id != "" then room + [id] else room
  }

  /** With a session id it is the LRU step; without one it keeps the pool exactly when the pool is not full. */
  lemma PoolStepIsTouchIff(keys: seq<string>, id: string, max: nat)
    requires max >= 1
    ensures id != "" ==> PoolStep(keys, id, max) == Lru.Touch(keys, id, max)
    ensures id == "" ==> (PoolStep(keys, id, max) == keys <==> |keys| < max)
  {
    if id == "" && |keys| >= max {
      assert |keys[1..]| < |keys|;
    }
  }

  class PiAgentSessionManager {
    const maxSessions: nat
    var order: seq<string>           // the keys of the OrderedDict, oldest first
    var sessions: map<string, nat>   // the session object pooled under each key, by number
    var created: nat                 // sessions created so far

    constructor (maxSessions: nat)
      requires maxSessions >= 1
      ensures Valid() && order == [] && this.maxSessions == maxSessions
    {
      this.maxSessions := maxSessions;
      order, sessions, created := [], map[], 0;
    }

    ghost predicate Valid()
      reads this
    {
      maxSessions >= 1 && Lru.CacheOk(order, maxSessions) && forall k :: k in order <==> k in sessions
    }

    method GetOrCreate(sessionId: string) returns (session: nat)
      requires Valid()
      modifies this
      ensures Valid() && order == PoolStep(old(order), sessionId, maxSessions)
      ensures if sessionId != "" && sessionId in old(sessions)
              then session == old(sessions)[sessionId] && created == old(created)
              else session == old(created) && created == old(created) + 1
      ensures sessionId != "" ==> sessionId in sessions && sessions[sessionId] == session
      ensures forall k :: k in sessions && k != sessionId ==> k in old(sessions) && sessions[k] == old(sessions)[k]
    {
      hide Lru.Remove;
      Lru.RemoveFacts(order, sessionId);
      Lru.TouchKeepsOk(order, sessionId, maxSessions);
      if sessionId != "" && sessionId in sessions {
        order := Lru.Remove(order, sessionId) + [sessionId];
        return sessions[sessionId];
      }
      if |order| >= maxSessions {
        var oldest := order[0];
        assert order == [oldest] + order[1..];
        order := order[1..];
        sessions := sessions - {oldest};
      }
      session := created;
      created := created + 1;
      if sessionId != "" {
        order := order + [sessionId];
        sessions := sessions[sessionId := session];
      }
    }
  }

  // ---------- the sidecar pool ----------

  class SidecarSessionManager {
    const capacity: nat
    var keys: seq<string>            // the Map's insertion order
    var lastUse: map<string, int>
    var session: map<string, nat>

    constructor (capacity: nat)
      requires capacity >= 1
      ensures Valid() && View() == SidecarPool.EMPTY && this.capacity == capacity
    {
      this.capacity := capacity;
      keys, lastUse, session := [], map[], map[];
    }

    ghost function View(): SidecarPool.Pool
      reads this
    {
      SidecarPool.Pool(keys, lastUse, session)
    }

    ghost predicate Valid()
      reads this
    {
      capacity >= 1 && SidecarPool.Valid(View()) && |keys| <= capacity
    }

    /** The part of `getOrCreate` before the `await`. */
    method Lookup(sessionId: string, now: int) returns (found: Option<nat>)
      requires Valid()
      modifies this`lastUse
      ensures Valid()
      ensures found.Some? <==> sessionId in keys
      ensures found.Some? ==> sessionId in session && found.value == session[sessionId]
                              && View() == SidecarPool.Refreshed(old(View()), sessionId, now)
      ensures found.None? ==> View() == old(View())
    {
      if sessionId !in lastUse {
        return None;
      }
      lastUse := lastUse[sessionId := now];
      assert lastUse.Keys == old(lastUse).Keys;
      return Some(session[sessionId]);
    }

    /** The scan: the least time seen so far, replaced only by a strictly smaller one. */
    method ScanOldest() returns (oldestKey: string)
      requires keys != [] && forall i :: 0 <= i < |keys| ==> keys[i] in lastUse
      ensures oldestKey == SidecarPool.Oldest(keys, lastUse)
      ensures exists i: nat :: SidecarPool.FirstOldest(keys, lastUse, i) && keys[i] == oldestKey
    {
      oldestKey := keys[0];
      var oldestTime := lastUse[oldestKey];
      assert keys[..1] == [oldestKey];
      assert SidecarPool.Oldest([oldestKey], lastUse) == oldestKey;
      hide SidecarPool.Oldest;
      for i := 1 to |keys|
        invariant oldestKey == SidecarPool.Oldest(keys[..i], lastUse) && oldestTime == lastUse[oldestKey]
      {
        SidecarPool.OldestNext(keys, lastUse, i);
        if lastUse[keys[i]] < oldestTime {
          oldestTime := lastUse[keys[i]];
          oldestKey := keys[i];
        }
      }
      assert keys[..|keys|] == keys;
      ghost var first := SidecarPool.OldestIsFirst(keys, lastUse);
    }

    method EvictIfNeeded()
      requires Valid()
      modifies this
      ensures View() == SidecarPool.Evicted(old(View()), capacity)
      ensures SidecarPool.Valid(View()) && |keys| < capacity
    {
      hide SidecarPool.Drop, SidecarPool.Oldest;
      SidecarPool.EvictionMakesRoom(View(), capacity);
      if |keys| >= capacity {
        var oldestKey := ScanOldest();
        Remove(oldestKey);
      }
    }

    /** `Map.delete`. */
    method Remove(sessionId: string)
      modifies this
      ensures View() == SidecarPool.Drop(old(View()), sessionId)
    {
      keys := Lru.Remove(keys, sessionId);
      lastUse := lastUse - {sessionId};
      session := session - {sessionId};
    }

    /** The part of `getOrCreate` after the `await`. */
    method Insert(sessionId: string, newSession: nat, now: int)
      requires Valid()
      modifies this
      ensures Valid()
      ensures View() == SidecarPool.Inserted(old(View()), sessionId, newSession, now, capacity)
    {
      SidecarPool.InsertKeepsValid(View(), sessionId, newSession, now, capacity);
      EvictIfNeeded();
      if sessionId !in lastUse {
        keys := keys + [sessionId];
      }
      lastUse := lastUse[sessionId := now];
      session := session[sessionId := newSession];
    }
  }
}
