/**
 * The history of one conversation: the turns in the order they were pushed,
 * the user's message and then the reply, cut back to the latest twenty
 * turns whenever it grows past that.
 */
module History {

  datatype Role = User | Assistant

  /** One entry of a history: who spoke, what was said (as sent, before normalizing) and when. */
  datatype Turn = Turn(role: Role, message: string, timestamp: string)

  /** The number of turns a history keeps. */
  const Limit: nat := 20

  function Min(a: int, b: int): int {
    if a < b then a else b
  }

  /**
   * `history.slice(-20)` after a push that made it longer than twenty:
   * exactly the latest `Limit` turns, in their order.
   */
  function Retain(h: seq<Turn>): (r: seq<Turn>)
    ensures |r| == Min(|h|, Limit)
    ensures r == h[|h| - |r|..]
  {
    if |h| > Limit then h[|h| - Limit..] else h
  }

  /** Cutting back twice is cutting back once. */
  lemma RetainIdempotent(h: seq<Turn>)
    ensures Retain(Retain(h)) == Retain(h)
  {
  }

  /** Cutting back before appending loses nothing that cutting back afterwards keeps. */
  lemma RetainAppend(h: seq<Turn>, x: seq<Turn>)
    ensures Retain(Retain(h) + x) == Retain(h + x)
  {
    var r := Retain(h);
    if |h| > Limit {
      var n := Min(|h| + |x|, Limit);
      assert |Retain(r + x)| == n;
      calc {
        Retain(r + x);
        (r + x)[|r + x| - n..];
        { assert r == h[|h| - Limit..]; assert r + x == (h + x)[|h| - Limit..]; }
        (h + x)[|h| - Limit..][|r + x| - n..];
        (h + x)[|h + x| - n..];
        Retain(h + x);
      }
    }
  }

  /**
   * One exchange: the user's turn and then the assistant's turn are pushed,
   * and the history is cut back to the latest `Limit` turns. The two new
   * turns come last, and what stays before them is the latest part of the
   * old history.
   */
  function AppendExchange(h: seq<Turn>, user: Turn, reply: Turn): (r: seq<Turn>)
    ensures |r| == Min(|h| + 2, Limit)
    ensures r[|r| - 2] == user && r[|r| - 1] == reply
    ensures r[..|r| - 2] == h[|h| - (|r| - 2)..]
  {
    var r := Retain(h + [user, reply]);
    assert r[..|r| - 2] == (h + [user, reply])[|h| + 2 - |r|..|h|];
    r
  }

  /** Pairs of a user's turn followed by an assistant's turn, and nothing else. */
  predicate Alternating(h: seq<Turn>)
    decreases |h|
  {
    if |h| < 2 then h == []
    else h[0].role == User && h[1].role == Assistant && Alternating(h[2..])
  }

  /** What every stored history looks like: at most `Limit` turns, in user-then-reply pairs. */
  predicate WellFormed(h: seq<Turn>) {
    |h| <= Limit && Alternating(h)
  }

  /** Every turn holds some text: a user's message that was accepted, or a reply. */
  predicate NonEmptyMessages(h: seq<Turn>) {
    forall i :: 0 <= i < |h| ==> h[i].message != []
  }

  /** An exchange of a non-empty message and a non-empty reply keeps every turn's text non-empty. */
  lemma AppendExchangeMessages(h: seq<Turn>, user: Turn, reply: Turn)
    requires NonEmptyMessages(h)
    requires user.message != [] && reply.message != []
    ensures NonEmptyMessages(AppendExchange(h, user, reply))
  {
    var all := h + [user, reply];
    var r := AppendExchange(h, user, reply);
    assert r == Retain(all);
    var d := |all| - |r|;
    forall i | 0 <= i < |r|
      ensures r[i].message != []
    {
      assert r[i] == all[d + i];
    }
  }

  /** An alternating history has an even number of turns. */
  lemma {:induction false} AlternatingEven(h: seq<Turn>)
    requires Alternating(h)
    ensures |h| % 2 == 0
    decreases |h|
  {
    if h != [] {
      AlternatingEven(h[2..]);
    }
  }

  /** In an alternating history the user speaks at even positions and the assistant at odd ones. */
  lemma {:induction false} AlternatingRoles(h: seq<Turn>, i: int)
    requires Alternating(h) && 0 <= i < |h|
    ensures h[i].role == if i % 2 == 0 then User else Assistant
    decreases |h|
  {
    if i >= 2 {
      AlternatingRoles(h[2..], i - 2);
      assert h[i] == h[2..][i - 2];
    }
  }

  /** Pushing a user's turn and then a reply keeps a history alternating. */
  lemma {:induction false} AlternatingAppend(h: seq<Turn>, user: Turn, reply: Turn)
    requires Alternating(h)
    requires user.role == User && reply.role == Assistant
    ensures Alternating(h + [user, reply])
    decreases |h|
  {
    if h == [] {
      assert h + [user, reply] == [user, reply];
      assert [user, reply][2..] == [];
    } else {
      AlternatingAppend(h[2..], user, reply);
      assert (h + [user, reply])[2..] == h[2..] + [user, reply];
    }
  }

  /** Dropping an even number of the oldest turns keeps a history alternating. */
  lemma {:induction false} AlternatingDrop(h: seq<Turn>, d: nat)
    requires Alternating(h)
    requires d % 2 == 0 && d <= |h|
    ensures Alternating(h[d..])
    decreases d
  {
    if d > 0 {
      AlternatingDrop(h[2..], d - 2);
      assert h[2..][d - 2..] == h[d..];
    } else {
      assert h[d..] == h;
    }
  }

  /** An exchange keeps a history well formed and leaves it non-empty. */
  lemma AppendExchangeWellFormed(h: seq<Turn>, user: Turn, reply: Turn)
    requires WellFormed(h)
    requires user.role == User && reply.role == Assistant
    ensures WellFormed(AppendExchange(h, user, reply))
    ensures AppendExchange(h, user, reply) != []
  {
    var all := h + [user, reply];
    AlternatingAppend(h, user, reply);
    AlternatingEven(h);
    var r := AppendExchange(h, user, reply);
    assert r == Retain(all);
    var d := |all| - |r|;
    assert r == all[d..];
    AlternatingDrop(all, d);
  }

  /** The turns of a run of exchanges, in the order they are pushed: each user's turn, then its reply. */
  function Flatten(xs: seq<(Turn, Turn)>): (ts: seq<Turn>)
    ensures |ts| == 2 * |xs|
    ensures forall i :: 0 <= i < |xs| ==> ts[2 * i] == xs[i].0 && ts[2 * i + 1] == xs[i].1
  {
    if xs == [] then [] else
      var rest := Flatten(xs[1..]);
      assert forall i :: 1 <= i < |xs| ==> xs[i] == xs[1..][i - 1];
      [xs[0].0, xs[0].1] + rest
  }

  /** A history after a run of exchanges, one after the other: it stays within `Limit` turns. */
  function Converse(h: seq<Turn>, xs: seq<(Turn, Turn)>): (r: seq<Turn>)
    ensures |h| <= Limit ==> |r| <= Limit
    decreases |xs|
  {
    if xs == [] then h else Converse(AppendExchange(h, xs[0].0, xs[0].1), xs[1..])
  }

  /** A non-empty run of exchanges ends the history with its last user's turn and reply. */
  lemma {:induction false} ConverseEndsWithLast(h: seq<Turn>, xs: seq<(Turn, Turn)>)
    requires xs != []
    ensures var r := Converse(h, xs);
      |r| >= 2 && r[|r| - 2] == xs[|xs| - 1].0 && r[|r| - 1] == xs[|xs| - 1].1
    decreases |xs|
  {
    var next, rest := AppendExchange(h, xs[0].0, xs[0].1), xs[1..];
    assert Converse(h, xs) == Converse(next, rest);
    if rest == [] {
      assert Converse(next, rest) == next;
    } else {
      ConverseEndsWithLast(next, rest);
      assert rest[|rest| - 1] == xs[|xs| - 1];
    }
  }

  /**
   * Cutting back after every exchange gives the same history as pushing all
   * the turns and cutting back once.
   */
  lemma {:induction false} ConverseRetainsAll(h: seq<Turn>, xs: seq<(Turn, Turn)>)
    requires |h| <= Limit
    ensures Converse(h, xs) == Retain(h + Flatten(xs))
    decreases |xs|
  {
    if xs == [] {
      assert h + Flatten(xs) == h;
    } else {
      var u, a, rest := xs[0].0, xs[0].1, xs[1..];
      var next := AppendExchange(h, u, a);
      assert Converse(h, xs) == Converse(next, rest);
      ConverseRetainsAll(next, rest);
      RetainAfterExchange(h, u, a, Flatten(rest));
      assert Flatten(xs) == [u, a] + Flatten(rest);
    }
  }

  /** Cutting back after an exchange and then again later is cutting back once. */
  lemma RetainAfterExchange(h: seq<Turn>, u: Turn, a: Turn, x: seq<Turn>)
    ensures Retain(AppendExchange(h, u, a) + x) == Retain(h + ([u, a] + x))
  {
    RetainAppend(h + [u, a], x);
    assert h + [u, a] + x == h + ([u, a] + x);
  }

  /** After `k` exchanges a history holds `min(old + 2k, 20)` turns. */
  lemma ConverseLength(h: seq<Turn>, xs: seq<(Turn, Turn)>)
    requires |h| <= Limit
    ensures |Converse(h, xs)| == Min(|h| + 2 * |xs|, Limit)
  {
    ConverseRetainsAll(h, xs);
  }

  /** A new conversation holds `min(2k, 20)` turns after `k` exchanges: the latest ones. */
  lemma FreshConversation(xs: seq<(Turn, Turn)>)
    ensures |Converse([], xs)| == Min(2 * |xs|, Limit)
    ensures Converse([], xs) == Flatten(xs)[2 * |xs| - |Converse([], xs)|..]
  {
    var all := Flatten(xs);
    ConverseRetainsAll([], xs);
    assert [] + all == all;
    var r := Retain(all);
    assert Converse([], xs) == r;
    assert r == all[|all| - |r|..];
  }
}
