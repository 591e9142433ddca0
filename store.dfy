/**
 * The in-memory conversation store behind the chat, history, clear and
 * health endpoints: a map from conversation id to that conversation's
 * history, changed in place by a chat and by a clear.
 */
module Store {
  import opened Wrappers
  import opened History
  import opened Dispatch

  /** The two random picks of one reply, `Math.floor(Math.random() * length)` for each pool. */
  datatype Draw = Draw(jokeIndex: nat, defaultIndex: nat)

  predicate InRange(d: Draw) {
    d.jokeIndex < |Jokes| && d.defaultIndex < |DefaultReplies|
  }

  /**
   * The clock readings of one chat: the ISO timestamps of the user's turn,
   * of the reply's turn and of the response, and the locale time and date
   * strings a time or date reply ends with.
   */
  datatype Clock = Clock(userStamp: string, replyStamp: string, responseStamp: string, localTime: string, localDate: string)

  /** A field of the request: absent (or `null`) or a string. */
  predicate Truthy(v: Option<string>) {
    v.Some? && v.value != []
  }

  /** `conversationId || 'default'`. */
  function ResolveId(conversationId: Option<string>): (id: string)
    ensures id != []
    ensures Truthy(conversationId) ==> id == conversationId.value
    ensures !Truthy(conversationId) ==> id == "default"
  {
    if Truthy(conversationId) then conversationId.value else "default"
  }

  /** `conversations[id] || []`: the stored history of `id`, or empty when there is none. */
  function Lookup(c: map<string, seq<Turn>>, id: string): (h: seq<Turn>)
    ensures id in c ==> h == c[id]
    ensures id !in c ==> h == []
  {
    if id in c then c[id] else []
  }

  /**
   * The store after one exchange in conversation `id`, created first when it
   * is new: `id` is added to the ids, every other conversation is kept, and
   * the history of `id` is its old one after the exchange.
   */
  function Chatted(c: map<string, seq<Turn>>, id: string, userMessage: string, response: string, clock: Clock): (r: map<string, seq<Turn>>)
    ensures r.Keys == c.Keys + {id}
    ensures forall k :: k in c && k != id ==> r[k] == c[k]
    ensures r[id] == AppendExchange(Lookup(c, id), Turn(User, userMessage, clock.userStamp), Turn(Assistant, response, clock.replyStamp))
  {
    var h := AppendExchange(Lookup(c, id), Turn(User, userMessage, clock.userStamp), Turn(Assistant, response, clock.replyStamp));
    UpdateKeys(c, id, h);
    c[id := h]
  }

  /** Storing under a key adds that key and no other. */
  lemma UpdateKeys<K, V>(c: map<K, V>, k: K, v: V)
    ensures c[k := v].Keys == c.Keys + {k}
  {
  }

  datatype ChatError = MissingMessage

  datatype ChatReply = ChatReply(response: string, conversationId: string, timestamp: string)

  datatype HistoryReply = HistoryReply(conversationId: string, history: seq<Turn>, messageCount: nat)

  datatype ClearReply = ClearReply(conversationId: string)

  /** What a stored history looks like: non-empty, well formed, and every turn holds some text. */
  predicate ValidHistory(h: seq<Turn>) {
    h != [] && WellFormed(h) && NonEmptyMessages(h)
  }

  /** Every stored history is valid. */
  predicate ValidStore(c: map<string, seq<Turn>>) {
    forall id :: id in c ==> ValidHistory(c[id])
  }

  /** In a valid store the history of an id is empty exactly when the id is not stored. */
  lemma LookupEmptyIffAbsent(c: map<string, seq<Turn>>, id: string)
    requires ValidStore(c)
    ensures Lookup(c, id) == [] <==> id !in c
  {
  }

  /** Storing a non-empty well-formed history keeps the store valid. */
  lemma StoreUpdate(c: map<string, seq<Turn>>, id: string, h: seq<Turn>)
    requires ValidStore(c) && ValidHistory(h)
    ensures ValidStore(c[id := h])
  {
  }

  /** A chat as the source performs it: push the user's turn, push the reply, cut back. */
  lemma ChattedSteps(c: map<string, seq<Turn>>, id: string, userMessage: string, response: string, clock: Clock)
    ensures Chatted(c, id, userMessage, response, clock)
         == c[id := Retain(Lookup(c, id) + [Turn(User, userMessage, clock.userStamp)] + [Turn(Assistant, response, clock.replyStamp)])]
  {
    var h, user, reply := Lookup(c, id), Turn(User, userMessage, clock.userStamp), Turn(Assistant, response, clock.replyStamp);
    assert h + [user] + [reply] == h + [user, reply];
  }

  /** Writing a key twice keeps the second value. */
  lemma Overwrite<K, V>(c: map<K, V>, k: K, a: V, b: V)
    ensures c[k := a][k := b] == c[k := b]
  {
  }

  class ConversationStore {
    var conversations: map<string, seq<Turn>>

    predicate Valid()
      reads this
    {
      ValidStore(conversations)
    }

    constructor()
      ensures conversations == map[]
      ensures Valid()
    {
      conversations := map[];
    }

    /**
     * `generateAIResponse`: get or create the history of `id`, push the
     * user's turn, compute the reply, push the assistant's turn and cut the
     * history back to its latest `Limit` turns when it grew past them.
     * It is the body of `Chat`, which also keeps `Valid()` (by `ChatKeepsValid`).
     */
    method GenerateResponse(userMessage: string, id: string, draw: Draw, clock: Clock) returns (response: string)
      requires InRange(draw)
      modifies this
      ensures response == Respond(userMessage, draw.jokeIndex, draw.defaultIndex, clock.localTime, clock.localDate)
      ensures conversations == Chatted(old(conversations), id, userMessage, response, clock)
    {
      var user := Turn(User, userMessage, clock.userStamp);
      PushUser(id, user);
      response := Respond(userMessage, draw.jokeIndex, draw.defaultIndex, clock.localTime, clock.localDate);
      var reply := Turn(Assistant, response, clock.replyStamp);
      PushReply(id, reply);
      Overwrite(old(conversations), id, Lookup(old(conversations), id) + [user],
        Retain(Lookup(old(conversations), id) + [user] + [reply]));
      ChattedSteps(old(conversations), id, userMessage, response, clock);
    }

    /**
     * Get or create the history of `id`, then push the user's turn onto it.
     * A step of `GenerateResponse`: on its own it leaves a user's turn with no
     * reply, so it neither needs nor keeps `Valid()`.
     */
    method PushUser(id: string, user: Turn)
      modifies this
      ensures id in conversations
      ensures conversations == old(conversations)[id := Lookup(old(conversations), id) + [user]]
    {
      if id !in conversations {
        conversations := conversations[id := []];
      }
      conversations := conversations[id := conversations[id] + [user]];
    }

    /**
     * Push the reply onto the history of `id`, then cut it back when it grew
     * past `Limit` turns. The step of `GenerateResponse` after `PushUser`; the
     * two together keep `Valid()`.
     */
    method PushReply(id: string, reply: Turn)
      requires id in conversations
      modifies this
      ensures conversations == old(conversations)[id := Retain(old(conversations)[id] + [reply])]
    {
      conversations := conversations[id := conversations[id] + [reply]];
      var history := conversations[id];
      if |history| > Limit {
        conversations := conversations[id := history[|history| - Limit..]];
      }
    }

    /**
     * The chat endpoint after the body is parsed: a falsy message is
     * rejected and nothing changes; otherwise the reply is generated in the
     * conversation named by the id, or in "default".
     */
    method Chat(message: Option<string>, conversationId: Option<string>, draw: Draw, clock: Clock)
      returns (result: Result<ChatReply, ChatError>)
      requires Valid() && InRange(draw)
      modifies this
      ensures Valid()
      ensures !Truthy(message) ==> result == Failure(MissingMessage) && conversations == old(conversations)
      ensures Truthy(message) ==>
        var id := ResolveId(conversationId);
        var response := Respond(message.value, draw.jokeIndex, draw.defaultIndex, clock.localTime, clock.localDate);
        && result == Success(ChatReply(response, id, clock.responseStamp))
        && conversations == Chatted(old(conversations), id, message.value, response, clock)
    {
      var id := ResolveId(conversationId);
      if !Truthy(message) {
        return Failure(MissingMessage);
      }
      var response := GenerateResponse(message.value, id, draw, clock);
      ChatKeepsValid(old(conversations), id, message.value, response, clock);
      result := Success(ChatReply(response, id, clock.responseStamp));
    }

    /** The history endpoint: the history of the id (or of "default") and its length. */
    function History(conversationId: Option<string>): (r: HistoryReply)
      reads this
      ensures r.conversationId == ResolveId(conversationId)
      ensures r.history == Lookup(conversations, r.conversationId)
      ensures r.messageCount == |r.history|
    {
      var id := ResolveId(conversationId);
      var h := Lookup(conversations, id);
      HistoryReply(id, h, |h|)
    }

    /** The clear endpoint: the id (or "default") is removed if present; nothing else changes. */
    method Clear(conversationId: Option<string>) returns (r: ClearReply)
      requires Valid()
      modifies this
      ensures Valid()
      ensures r.conversationId == ResolveId(conversationId)
      ensures conversations == old(conversations) - {r.conversationId}
    {
      var id := ResolveId(conversationId);
      if id in conversations {
        conversations := conversations - {id};
      }
      r := ClearReply(id);
    }

    /** The health endpoint's `activeConversations`: the number of stored ids. */
    function Count(): (n: nat)
      reads this
      ensures n == |conversations.Keys|
    {
      |conversations|
    }
  }

  /**
   * A chat of a non-empty message with a non-empty reply keeps every stored
   * history non-empty and well formed, with text in every turn.
   */
  lemma ChatKeepsValid(c: map<string, seq<Turn>>, id: string, userMessage: string, response: string, clock: Clock)
    requires ValidStore(c)
    requires userMessage != [] && response != []
    ensures ValidStore(Chatted(c, id, userMessage, response, clock))
  {
    var user, reply := Turn(User, userMessage, clock.userStamp), Turn(Assistant, response, clock.replyStamp);
    var before := Lookup(c, id);
    assert WellFormed(before) && NonEmptyMessages(before) by {
      if id in c {
        assert ValidHistory(c[id]);
      }
    }
    var after := AppendExchange(before, user, reply);
    AppendExchangeWellFormed(before, user, reply);
    AppendExchangeMessages(before, user, reply);
    StoreUpdate(c, id, after);
  }

  /** Every stored turn holds some text. */
  lemma StoredMessagesNonEmpty(c: map<string, seq<Turn>>, id: string, i: int)
    requires ValidStore(c) && id in c && 0 <= i < |c[id]|
    ensures c[id][i].message != []
  {
  }

  /** No stored history holds more than `Limit` turns. */
  lemma StoredHistoryBounded(c: map<string, seq<Turn>>, id: string)
    requires ValidStore(c)
    ensures |Lookup(c, id)| <= Limit
  {
  }

  /** A chat adds two turns to its conversation, up to `Limit`. */
  lemma ChatCount(c: map<string, seq<Turn>>, id: string, userMessage: string, response: string, clock: Clock)
    ensures |Lookup(Chatted(c, id, userMessage, response, clock), id)| == Min(|Lookup(c, id)| + 2, Limit)
  {
  }

  /**
   * A chat ends its conversation with the user's message as sent and then
   * the reply, after the latest turns that were there before.
   */
  lemma ChatEndsWithExchange(c: map<string, seq<Turn>>, id: string, userMessage: string, response: string, clock: Clock)
    ensures var h := Lookup(Chatted(c, id, userMessage, response, clock), id);
      && |h| >= 2
      && h[|h| - 2] == Turn(User, userMessage, clock.userStamp)
      && h[|h| - 1] == Turn(Assistant, response, clock.replyStamp)
      && h[..|h| - 2] == Lookup(c, id)[|Lookup(c, id)| - (|h| - 2)..]
  {
  }

  /** A chat leaves every other conversation as it was. */
  lemma ChatKeepsOthers(c: map<string, seq<Turn>>, id: string, other: string, userMessage: string, response: string, clock: Clock)
    requires other != id
    ensures Lookup(Chatted(c, id, userMessage, response, clock), other) == Lookup(c, other)
  {
  }

  /** A chat adds an id to the store exactly when the id is new. */
  lemma ChatActiveCount(c: map<string, seq<Turn>>, id: string, userMessage: string, response: string, clock: Clock)
    ensures |Chatted(c, id, userMessage, response, clock)| == if id in c then |c| else |c| + 1
  {
  }

  /** One exchange of a run of chats: the user's message, the reply and the clock readings. */
  datatype Exchange = Exchange(userMessage: string, response: string, clock: Clock)

  /** The two turns one exchange pushes. */
  function TurnsOf(e: Exchange): (Turn, Turn) {
    (Turn(User, e.userMessage, e.clock.userStamp), Turn(Assistant, e.response, e.clock.replyStamp))
  }

  /** The turns of a run of exchanges, one pair per exchange, in order. */
  function ExchangeTurns(es: seq<Exchange>): (xs: seq<(Turn, Turn)>)
    ensures |xs| == |es|
    ensures forall i :: 0 <= i < |es| ==> xs[i] == TurnsOf(es[i])
  {
    seq(|es|, i requires 0 <= i < |es| => TurnsOf(es[i]))
  }

  /** The store after a run of chats in conversation `id`, one after the other. */
  function ChattedAll(c: map<string, seq<Turn>>, id: string, es: seq<Exchange>): map<string, seq<Turn>>
    decreases |es|
  {
    if es == [] then c
    else ChattedAll(Chatted(c, id, es[0].userMessage, es[0].response, es[0].clock), id, es[1..])
  }

  /** The history of `id` after a run of chats is its old history after the same run of exchanges. */
  lemma {:induction false} ChattedAllConverse(c: map<string, seq<Turn>>, id: string, es: seq<Exchange>)
    ensures Lookup(ChattedAll(c, id, es), id) == Converse(Lookup(c, id), ExchangeTurns(es))
    decreases |es|
  {
    if es != [] {
      var e, xs := es[0], ExchangeTurns(es);
      var next := Chatted(c, id, e.userMessage, e.response, e.clock);
      assert xs[1..] == ExchangeTurns(es[1..]);
      calc {
        Lookup(ChattedAll(c, id, es), id);
        Lookup(ChattedAll(next, id, es[1..]), id);
        { ChattedAllConverse(next, id, es[1..]); }
        Converse(Lookup(next, id), xs[1..]);
        { assert Lookup(next, id) == AppendExchange(Lookup(c, id), xs[0].0, xs[0].1); }
        Converse(AppendExchange(Lookup(c, id), xs[0].0, xs[0].1), xs[1..]);
        Converse(Lookup(c, id), xs);
      }
    }
  }

  /** After k chats on an id that was not stored, its history holds `min(2k, 20)` turns. */
  lemma RepeatedChats(c: map<string, seq<Turn>>, id: string, es: seq<Exchange>)
    requires id !in c
    ensures |Lookup(ChattedAll(c, id, es), id)| == Min(2 * |es|, Limit)
  {
    var xs := ExchangeTurns(es);
    ChattedAllConverse(c, id, es);
    assert Lookup(c, id) == [];
    ConverseLength([], xs);
    assert |xs| == |es|;
  }

  /** After a clear the history of the id is empty and holds no messages. */
  lemma ClearEmptiesHistory(c: map<string, seq<Turn>>, id: string)
    ensures Lookup(c - {id}, id) == []
  {
  }

  /** Clearing twice is clearing once. */
  lemma ClearIdempotent(c: map<string, seq<Turn>>, id: string)
    ensures (c - {id}) - {id} == c - {id}
  {
  }

  /** A clear leaves every other conversation as it was. */
  lemma ClearKeepsOthers(c: map<string, seq<Turn>>, id: string, other: string)
    requires other != id
    ensures Lookup(c - {id}, other) == Lookup(c, other)
  {
  }

  /** A clear removes one id from the count exactly when the id was stored. */
  lemma ClearActiveCount(c: map<string, seq<Turn>>, id: string)
    ensures |c - {id}| == if id in c then |c| - 1 else |c|
  {
    assert (c - {id}).Keys == c.Keys - {id};
    if id !in c {
      assert c.Keys - {id} == c.Keys;
    }
  }
}
