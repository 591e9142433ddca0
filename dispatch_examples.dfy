/**
 * Worked examples of the keyword chain on concrete messages: the
 * first-match rule, matching inside words, and normalization.
 *
 * Most lemmas take their message as a parameter fixed by a `requires`
 * (`requires m == "this"`) rather than writing the literal in the `ensures`.
 * Given a literal argument, the verifier unfolds `ToLower`, `Trim`,
 * `Contains` and `Classify` on it character by character, which runs past
 * the resource limit; on a parameter it uses their contracts and the
 * occurrence facts the body supplies.
 */
module DispatchExamples {
  import opened Text
  import opened Dispatch

  /** The lower-case example messages are their own normal form. */
  lemma LiteralNormalized(m: string)
    requires m == "hi, what time is it" || m == "hello there" || m == "tell me a joke"
    ensures Normalize(m) == m
  {
    assert forall i :: 0 <= i < |m| ==> !HasAsciiLowering(m[i]);
    NormalizedAlready(m);
  }

  /** "hi, what time is it" opens with the greeting keyword "hi", "hello there" with "hello". */
  lemma GreetingMessages(m: string)
    requires m == "hi, what time is it" || m == "hello there"
    ensures Hits(m, Greeting)
  {
    if m == "hi, what time is it" {
      assert OccursAt(m, "hi", 0);
      assert "hi" in Keywords(Greeting) && Contains(m, "hi");
    } else {
      assert OccursAt(m, "hello", 0);
      assert "hello" in Keywords(Greeting) && Contains(m, "hello");
    }
  }

  /** "hi, what time is it" asks for the time but is answered with the greeting. */
  lemma GreetingBeforeTime(jokeIndex: nat, defaultIndex: nat, localTime: string, localDate: string)
    requires jokeIndex < |Jokes| && defaultIndex < |DefaultReplies|
    ensures Respond("hi, what time is it", jokeIndex, defaultIndex, localTime, localDate) == GreetingReply
  {
    LiteralNormalized("hi, what time is it");
    GreetingMessages("hi, what time is it");
    GreetingWins("hi, what time is it", jokeIndex, defaultIndex, localTime, localDate);
  }

  /** Keywords are matched inside words: "this" holds "hi" and is a greeting. */
  lemma ThisGreets(m: string)
    requires m == "this"
    ensures Classify(m) == Greeting
  {
    assert OccursAt(m, "hi", 1);
    assert Contains(m, "hi");
  }

  /** "update" holds "date" and none of the earlier keywords, so it asks for the date. */
  lemma UpdateAsksDate(m: string)
    requires m == "update"
    ensures Classify(m) == Date
  {
    MissingCharBlocks(m, "hello", 'h');
    MissingCharBlocks(m, "hi", 'h');
    MissingCharBlocks(m, "hey", 'h');
    MissingCharBlocks(m, "how are you", 'h');
    MissingCharBlocks(m, "weather", 'w');
    MissingCharBlocks(m, "time", 'i');
    assert OccursAt(m, "date", 2);
    assert Contains(m, "date");
  }

  /** "  HELLO there  " is "HELLO there" padded with two spaces, and differs from "hello there" only in case. */
  lemma ShoutedParts(shouted: string, plain: string)
    requires shouted == "  HELLO there  " && plain == "hello there"
    ensures shouted == "  " + shouted[2..13] + "  "
    ensures |shouted[2..13]| == |plain|
    ensures forall i :: 0 <= i < |plain| ==> LowerChar(shouted[2..13][i]) == LowerChar(plain[i])
  {
  }

  /** "  HELLO there  " and "hello there" are both answered with the greeting. */
  lemma ShoutedGreeting(
    shouted: string, plain: string,
    jokeIndex: nat, defaultIndex: nat, localTime: string, localDate: string)
    requires shouted == "  HELLO there  " && plain == "hello there"
    requires jokeIndex < |Jokes| && defaultIndex < |DefaultReplies|
    ensures Respond(shouted, jokeIndex, defaultIndex, localTime, localDate)
         == Respond(plain, jokeIndex, defaultIndex, localTime, localDate)
         == GreetingReply
  {
    ShoutedParts(shouted, plain);
    var s := shouted[2..13];
    SameLowering(s, plain);
    RespondIgnoresCaseAndPadding("  ", s, "  ", plain, jokeIndex, defaultIndex, localTime, localDate);
    LiteralNormalized(plain);
    GreetingMessages(plain);
    GreetingWins(plain, jokeIndex, defaultIndex, localTime, localDate);
  }

  /** "tell me a joke" holds "joke" and lacks a letter of every keyword tested before it. */
  lemma TellMeAJoke(m: string)
    requires m == "tell me a joke"
    ensures 'h' !in m && 'w' !in m && 'i' !in m && 'd' !in m
    ensures 'b' !in m && 'g' !in m && 'n' !in m
    ensures Contains(m, "joke")
  {
    assert OccursAt(m, "joke", 10);
  }

  /**
   * A message with "joke" in it and without the letters h, w, i, d, b, g
   * and n has no keyword of an earlier group, so it asks for a joke.
   */
  lemma JokeOnly(m: string)
    requires 'h' !in m && 'w' !in m && 'i' !in m && 'd' !in m
    requires 'b' !in m && 'g' !in m && 'n' !in m
    requires Contains(m, "joke")
    ensures Classify(m) == Humor
  {
    MissingCharBlocks(m, "hello", 'h');
    MissingCharBlocks(m, "hi", 'h');
    MissingCharBlocks(m, "hey", 'h');
    MissingCharBlocks(m, "how are you", 'h');
    MissingCharBlocks(m, "weather", 'w');
    MissingCharBlocks(m, "time", 'i');
    MissingCharBlocks(m, "date", 'd');
    MissingCharBlocks(m, "help", 'h');
    MissingCharBlocks(m, "bye", 'b');
    MissingCharBlocks(m, "goodbye", 'g');
    MissingCharBlocks(m, "thank", 'h');
    MissingCharBlocks(m, "name", 'n');
  }

  /** "tell me a joke" is answered with one of the jokes. */
  lemma JokeRequest(jokeIndex: nat, defaultIndex: nat, localTime: string, localDate: string)
    requires jokeIndex < |Jokes| && defaultIndex < |DefaultReplies|
    ensures Respond("tell me a joke", jokeIndex, defaultIndex, localTime, localDate) in Jokes
  {
    LiteralNormalized("tell me a joke");
    TellMeAJoke("tell me a joke");
    JokeOnly("tell me a joke");
  }
}
