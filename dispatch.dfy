/**
 * The reply generator of the chatbot: the message is lower-cased and trimmed,
 * then tested against keyword groups in a fixed order, and the first group
 * with a substring hit decides the reply. No hit gives a random fallback.
 *
 * The two random picks of the source (`Math.floor(Math.random() * length)`)
 * are the parameters `jokeIndex` and `defaultIndex`; the locale-formatted
 * clock strings are `localTime` and `localDate`.
 */
module Dispatch {
  import opened Text

  /** The reply categories, one per branch of the keyword chain. */
  datatype Category =
    | Greeting | Wellbeing | Weather | Time | Date | Help
    | Farewell | Gratitude | Identity | Humor | Fallback

  /** Position of a category in the chain: a lower one is tested first, and the fallback comes last. */
  function Priority(c: Category): (p: nat)
    ensures p <= 10
    ensures p == 10 <==> c == Fallback
  {
    match c
    case Greeting => 0
    case Wellbeing => 1
    case Weather => 2
    case Time => 3
    case Date => 4
    case Help => 5
    case Farewell => 6
    case Gratitude => 7
    case Identity => 8
    case Humor => 9
    case Fallback => 10
  }

  /** No two groups share a position: the chain tests them in one strict order. */
  lemma ChainOrder(c: Category, d: Category)
    ensures Priority(c) == Priority(d) <==> c == d
  {
  }

  /** The keywords of each group; the fallback has none. */
  function Keywords(c: Category): (ks: seq<string>)
    ensures ks == [] <==> c == Fallback
  {
    match c
    case Greeting => ["hello", "hi", "hey"]
    case Wellbeing => ["how are you"]
    case Weather => ["weather"]
    case Time => ["time"]
    case Date => ["date"]
    case Help => ["help"]
    case Farewell => ["bye", "goodbye"]
    case Gratitude => ["thank"]
    case Identity => ["name"]
    case Humor => ["joke"]
    case Fallback => []
  }

  /**
   * Every keyword is made of lower-case ASCII letters and spaces, so it can
   * occur in a lower-cased message.
   */
  lemma KeywordsLowerCase(c: Category, k: string)
    requires k in Keywords(c)
    ensures k != [] && forall i :: 0 <= i < |k| ==> ('a' <= k[i] <= 'z' || k[i] == ' ')
  {
  }

  /** Some keyword of group `c` occurs in the normalized message `m`. */
  predicate Hits(m: string, c: Category) {
    exists k :: k in Keywords(c) && Contains(m, k)
  }

  /** The test the chain applies for group `c`, keyword by keyword as its `||` does. */
  predicate Tested(m: string, c: Category) {
    match c
    case Greeting => Contains(m, "hello") || Contains(m, "hi") || Contains(m, "hey")
    case Wellbeing => Contains(m, "how are you")
    case Weather => Contains(m, "weather")
    case Time => Contains(m, "time")
    case Date => Contains(m, "date")
    case Help => Contains(m, "help")
    case Farewell => Contains(m, "bye") || Contains(m, "goodbye")
    case Gratitude => Contains(m, "thank")
    case Identity => Contains(m, "name")
    case Humor => Contains(m, "joke")
    case Fallback => false
  }

  /** The chain's test of a group succeeds exactly when a keyword of the group occurs. */
  lemma HitsTested(m: string, c: Category)
    ensures Hits(m, c) <==> Tested(m, c)
  {
    var ks := Keywords(c);
    if Tested(m, c) {
      match c
      case Greeting =>
        if Contains(m, "hello") {
          assert "hello" in ks;
        } else if Contains(m, "hi") {
          assert "hi" in ks;
        } else {
          assert "hey" in ks;
        }
      case Farewell =>
        if Contains(m, "bye") {
          assert "bye" in ks;
        } else {
          assert "goodbye" in ks;
        }
      case Wellbeing | Weather | Time | Date | Help | Gratitude | Identity | Humor =>
        assert ks[0] in ks;
      case Fallback =>
    }
  }

  /** `HitsTested` for every group at once. */
  lemma HitsTable(m: string)
    ensures forall c :: Hits(m, c) <==> Tested(m, c)
  {
    forall c
      ensures Hits(m, c) <==> Tested(m, c)
    {
      HitsTested(m, c);
    }
  }

  /**
   * What the message is matched on: `userMessage.toLowerCase().trim()`. The
   * result has no upper-case letter left and no whitespace at either end,
   * and sits inside the lower-cased message with only whitespace around it.
   */
  function Normalize(s: string): (m: string)
    ensures forall i :: 0 <= i < |m| ==> !HasAsciiLowering(m[i])
    ensures m == [] || (!IsWhitespace(m[0]) && !IsWhitespace(m[|m| - 1]))
    ensures exists lo :: PaddedAt(ToLower(s), lo, m)
  {
    TrimKeepsLowered(ToLower(s));
    Trim(ToLower(s))
  }

  /**
   * The keyword chain. First match wins: the chosen group has a hit and no
   * group tested before it has one; the fallback is chosen exactly when no
   * group has a hit.
   */
  function Classify(m: string): (c: Category)
    ensures c == Fallback || Hits(m, c)
    ensures forall d :: Priority(d) < Priority(c) ==> !Hits(m, d)
  {
    HitsTable(m);
    if Contains(m, "hello") || Contains(m, "hi") || Contains(m, "hey") then Greeting
    else if Contains(m, "how are you") then Wellbeing
    else if Contains(m, "weather") then Weather
    else if Contains(m, "time") then Time
    else if Contains(m, "date") then Date
    else if Contains(m, "help") then Help
    else if Contains(m, "bye") || Contains(m, "goodbye") then Farewell
    else if Contains(m, "thank") then Gratitude
    else if Contains(m, "name") then Identity
    else if Contains(m, "joke") then Humor
    else Fallback
  }

  // The replies, character for character. The longer ones are written as
  // concatenations of literals of at most about forty characters: the
  // verifier reads single characters of a short literal directly, but not of
  // a long one, and the proofs that tell the replies apart need those
  // characters.
  const GreetingReply := "Hello! How can I assist you today?"
  const WellbeingReply := "I'm doing great, thank you " + "for asking! How can I help you?"
  const WeatherReply := "I can help you with weather " + "information. What location are you " + "interested in?"
  const TimePrefix := "The current time is "
  const DatePrefix := "Today's date is "
  const HelpReply := "I can help you with various tasks. " + "Try asking me about the time, date, "
                     + "weather, or just have a conversation!"
  const FarewellReply := "Goodbye! Have a great day!"
  const GratitudeReply := "You're welcome! Is there anything " + "else I can help you with?"
  const IdentityReply := "I'm an AI-powered chatbot created to " + "assist you. You can call me ChatBot!"

  const Jokes: seq<string> := [
    "Why don't programmers like nature? " + "It has too many bugs!",
    "Why do programmers prefer dark mode? " + "Because light attracts bugs!",
    "How many programmers does it take to " + "change a light bulb? " + "None, that's a hardware problem!"
  ]

  const DefaultReplies: seq<string> := [
    "That's interesting! Tell me more.",
    "I understand. How can I assist you " + "further?",
    "I'm here to help! Could you provide " + "more details?",
    "I see. What would you like to know " + "about that?"
  ]

  /** The reply of a category; the time and date replies end with the locale string. */
  function Reply(c: Category, jokeIndex: nat, defaultIndex: nat, localTime: string, localDate: string): (r: string)
    requires jokeIndex < |Jokes| && defaultIndex < |DefaultReplies|
    ensures r != []
  {
    match c
    case Greeting => GreetingReply
    case Wellbeing => WellbeingReply
    case Weather => WeatherReply
    case Time => TimePrefix + localTime
    case Date => DatePrefix + localDate
    case Help => HelpReply
    case Farewell => FarewellReply
    case Gratitude => GratitudeReply
    case Identity => IdentityReply
    case Humor => Jokes[jokeIndex]
    case Fallback => DefaultReplies[defaultIndex]
  }

  /**
   * Reads the category back from a reply: every reply of the chain is
   * recognisable, whatever the locale strings and random picks were.
   */
  function CategoryOfReply(r: string): Category {
    if TimePrefix <= r then Time
    else if DatePrefix <= r then Date
    else if r in Jokes then Humor
    else if r in DefaultReplies then Fallback
    else if r == GreetingReply then Greeting
    else if r == WellbeingReply then Wellbeing
    else if r == WeatherReply then Weather
    else if r == HelpReply then Help
    else if r == FarewellReply then Farewell
    else if r == GratitudeReply then Gratitude
    else if r == IdentityReply then Identity
    else Fallback
  }

  /** The marks of the two long fixed replies that start alike. */
  lemma LongReplyMarks()
    ensures WeatherReply[0] == 'I' && WeatherReply[1] == ' ' && WeatherReply[2] == 'c' && WeatherReply[20] == 'w'
    ensures HelpReply[0] == 'I' && HelpReply[1] == ' ' && HelpReply[2] == 'c' && HelpReply[20] == 'v'
  {
  }

  /** The marks of the other fixed replies and of the clock prefixes. */
  lemma ShortReplyMarks()
    ensures GreetingReply[0] == 'H' && GreetingReply[1] == 'e'
    ensures WellbeingReply[0] == 'I' && WellbeingReply[1] == '\'' && WellbeingReply[4] == 'd'
    ensures FarewellReply[0] == 'G' && GratitudeReply[0] == 'Y'
    ensures IdentityReply[0] == 'I' && IdentityReply[1] == '\'' && IdentityReply[4] == 'a'
    ensures TimePrefix[0] == 'T' && TimePrefix[1] == 'h' && TimePrefix[2] == 'e'
    ensures DatePrefix[0] == 'T' && DatePrefix[1] == 'o'
  {
  }

  /** The marks of the jokes. */
  lemma JokeMarks()
    ensures Jokes[0][0] == 'W' && Jokes[1][0] == 'W' && Jokes[2][0] == 'H' && Jokes[2][1] == 'o'
  {
  }

  /** The marks of the fallbacks. */
  lemma DefaultMarks()
    ensures DefaultReplies[0][0] == 'T' && DefaultReplies[0][1] == 'h' && DefaultReplies[0][2] == 'a'
    ensures DefaultReplies[1][0] == 'I' && DefaultReplies[1][1] == ' ' && DefaultReplies[1][2] == 'u'
    ensures DefaultReplies[2][0] == 'I' && DefaultReplies[2][1] == '\'' && DefaultReplies[2][4] == 'h'
    ensures DefaultReplies[3][0] == 'I' && DefaultReplies[3][1] == ' ' && DefaultReplies[3][2] == 's'
  {
  }

  /** Every joke reads back as a joke. */
  lemma JokeRecognised(i: nat)
    requires i < |Jokes|
    ensures CategoryOfReply(Jokes[i]) == Humor
  {
    LongReplyMarks();
    ShortReplyMarks();
    JokeMarks();
    DefaultMarks();
  }

  /** Every fallback reads back as a fallback. */
  lemma DefaultRecognised(i: nat)
    requires i < |DefaultReplies|
    ensures CategoryOfReply(DefaultReplies[i]) == Fallback
  {
    LongReplyMarks();
    ShortReplyMarks();
    JokeMarks();
    DefaultMarks();
  }

  /** No fixed reply is a joke or a fallback. */
  lemma FixedRepliesOutsidePools()
    ensures forall r :: (r in [GreetingReply, WellbeingReply, WeatherReply, HelpReply,
                               FarewellReply, GratitudeReply, IdentityReply])
                        ==> r !in Jokes && r !in DefaultReplies
  {
    LongReplyMarks();
    ShortReplyMarks();
    JokeMarks();
    DefaultMarks();
  }

  /** The time and date replies read back as such, whatever locale string they carry. */
  lemma ClockRepliesRecognised(localTime: string, localDate: string)
    ensures CategoryOfReply(TimePrefix + localTime) == Time
    ensures CategoryOfReply(DatePrefix + localDate) == Date
  {
    ShortReplyMarks();
    assert TimePrefix <= TimePrefix + localTime;
    assert DatePrefix <= DatePrefix + localDate;
    assert (DatePrefix + localDate)[1] == 'o';
  }

  /** Each fixed reply reads back as its own category. */
  lemma FixedRepliesRecognised(c: Category)
    requires c in {Greeting, Wellbeing, Weather, Help, Farewell, Gratitude, Identity}
    ensures CategoryOfReply(Reply(c, 0, 0, "", "")) == c
  {
    LongReplyMarks();
    ShortReplyMarks();
    FixedRepliesOutsidePools();
  }

  /** Replies of different categories differ: the category can be read back from the reply. */
  lemma ReplyRoundTrip(c: Category, jokeIndex: nat, defaultIndex: nat, localTime: string, localDate: string)
    requires jokeIndex < |Jokes| && defaultIndex < |DefaultReplies|
    ensures CategoryOfReply(Reply(c, jokeIndex, defaultIndex, localTime, localDate)) == c
  {
    match c
    case Humor =>
      JokeRecognised(jokeIndex);
    case Fallback =>
      DefaultRecognised(defaultIndex);
    case Time =>
      ClockRepliesRecognised(localTime, localDate);
    case Date =>
      ClockRepliesRecognised(localTime, localDate);
    case Greeting | Wellbeing | Weather | Help | Farewell | Gratitude | Identity =>
      FixedRepliesRecognised(c);
  }

  /**
   * The dispatcher: the reply to `userMessage`. It is never empty and belongs
   * to the category the chain picks. A time or date reply ends with the clock
   * string; a joke or a fallback is the one the random pick names, and it comes
   * exactly when the joke group is picked or no keyword occurs.
   */
  function Respond(userMessage: string, jokeIndex: nat, defaultIndex: nat, localTime: string, localDate: string): (r: string)
    requires jokeIndex < |Jokes| && defaultIndex < |DefaultReplies|
    ensures r != []
    ensures CategoryOfReply(r) == Classify(Normalize(userMessage))
    ensures r in Jokes <==> Classify(Normalize(userMessage)) == Humor
    ensures r in DefaultReplies <==> Classify(Normalize(userMessage)) == Fallback
    ensures Classify(Normalize(userMessage)) == Time ==> r == TimePrefix + localTime
    ensures Classify(Normalize(userMessage)) == Date ==> r == DatePrefix + localDate
    ensures Classify(Normalize(userMessage)) == Humor ==> r == Jokes[jokeIndex]
    ensures Classify(Normalize(userMessage)) == Fallback ==> r == DefaultReplies[defaultIndex]
  {
    var c := Classify(Normalize(userMessage));
    var r := Reply(c, jokeIndex, defaultIndex, localTime, localDate);
    ReplyRoundTrip(c, jokeIndex, defaultIndex, localTime, localDate);
    forall i | 0 <= i < |Jokes| ensures CategoryOfReply(Jokes[i]) == Humor {
      JokeRecognised(i);
    }
    forall i | 0 <= i < |DefaultReplies| ensures CategoryOfReply(DefaultReplies[i]) == Fallback {
      DefaultRecognised(i);
    }
    assert r in Jokes ==> c == Humor;
    assert r in DefaultReplies ==> c == Fallback;
    r
  }

  /** The fallback is chosen exactly when no keyword of any group occurs. */
  lemma FallbackIffNoHit(m: string)
    ensures Classify(m) == Fallback <==> forall c :: !Hits(m, c)
  {
    var c := Classify(m);
    if c != Fallback {
      assert Hits(m, c);
    } else {
      forall d
        ensures !Hits(m, d)
      {
        if d != Fallback {
          assert Priority(d) < Priority(c);
        }
      }
    }
  }

  /** The first-match rule of `Classify` leaves no choice: one category meets it. */
  lemma ClassifyUnique(m: string, c: Category)
    requires c == Fallback || Hits(m, c)
    requires forall d :: Priority(d) < Priority(c) ==> !Hits(m, d)
    ensures c == Classify(m)
  {
    var k := Classify(m);
    assert Priority(k) <= Priority(c);
  }

  /** A greeting keyword anywhere in the message wins over every other keyword. */
  lemma GreetingWins(userMessage: string, jokeIndex: nat, defaultIndex: nat, localTime: string, localDate: string)
    requires jokeIndex < |Jokes| && defaultIndex < |DefaultReplies|
    requires Hits(Normalize(userMessage), Greeting)
    ensures Respond(userMessage, jokeIndex, defaultIndex, localTime, localDate) == GreetingReply
  {
    ClassifyUnique(Normalize(userMessage), Greeting);
  }

  /** A message already in lower case and without padding is matched as it is. */
  lemma NormalizedAlready(m: string)
    requires m != [] && !IsWhitespace(m[0]) && !IsWhitespace(m[|m| - 1])
    requires forall i :: 0 <= i < |m| ==> !HasAsciiLowering(m[i])
    ensures Normalize(m) == m
  {
    TrimUnpadded(m);
  }

  /** "goodbye" contains "bye", so the second keyword of the farewell group never decides anything. */
  lemma GoodbyeNeedsNoTest(m: string)
    requires Contains(m, "goodbye")
    ensures Contains(m, "bye")
  {
    assert OccursAt("goodbye", "bye", 4);
    ContainsTransitive(m, "goodbye", "bye");
  }

  /** Case of ASCII letters and whitespace around the message do not change the reply. */
  lemma RespondIgnoresCaseAndPadding(
    before: string, s: string, after: string, t: string,
    jokeIndex: nat, defaultIndex: nat, localTime: string, localDate: string)
    requires jokeIndex < |Jokes| && defaultIndex < |DefaultReplies|
    requires AllWhitespace(before) && AllWhitespace(after)
    requires ToLower(s) == ToLower(t)
    ensures Respond(before + s + after, jokeIndex, defaultIndex, localTime, localDate)
         == Respond(t, jokeIndex, defaultIndex, localTime, localDate)
  {
    calc {
      ToLower(before + s + after);
      { ToLowerAppend(before + s, after); ToLowerAppend(before, s); }
      ToLower(before) + ToLower(s) + ToLower(after);
      { ToLowerWhitespace(before); ToLowerWhitespace(after); }
      before + ToLower(t) + after;
    }
    TrimPadding(before, ToLower(t), after);
  }

  /** Normalizing a normalized message changes nothing. */
  lemma NormalizeIdempotent(s: string)
    ensures Normalize(Normalize(s)) == Normalize(s)
  {
    var n := Normalize(s);
    assert ToLower(n) == n;
    TrimIdempotent(ToLower(s));
  }

  /** A message of only whitespace passes as a message but matches nothing. */
  lemma BlankMessageFallsBack(s: string, jokeIndex: nat, defaultIndex: nat, localTime: string, localDate: string)
    requires jokeIndex < |Jokes| && defaultIndex < |DefaultReplies|
    requires AllWhitespace(s)
    ensures Respond(s, jokeIndex, defaultIndex, localTime, localDate) in DefaultReplies
  {
    ToLowerWhitespace(s);
    TrimStartAllWhitespace(s);
    assert Normalize(s) == [];
    EmptyMatchesNothing();
  }

  /** The empty message holds no keyword. */
  lemma EmptyMatchesNothing()
    ensures Classify([]) == Fallback
  {
  }

}
