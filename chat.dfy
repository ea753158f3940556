/**
 * The campus chat widget: a keyword responder over an ordered table of
 * canned answers, and the conversation log that the send handler appends to.
 */
module Chat {
  import opened Wrappers
  import opened Text

  /** An ordered keyword table: pairs of a key and its canned answer. */
  type Table = seq<(string, string)>

  /** The keys of `table`, in order. */
  function KeysOf(table: Table): seq<string> {
    seq(|table|, k requires 0 <= k < |table| => table[k].0)
  }

  /** The key at position `k`, as the matcher compares it (lower-cased). */
  function Key(keys: seq<string>, k: nat): string
    requires k < |keys|
  {
    Lower(keys[k])
  }

  /** Index of the first key that occurs in `text`, if any. */
  function FirstMatch(keys: seq<string>, text: string): (r: Option<nat>)
    ensures r.Some? ==> r.value < |keys| && Contains(text, Key(keys, r.value))
    ensures r.Some? ==> forall j | 0 <= j < r.value :: !Contains(text, Key(keys, j))
    ensures r.None? <==> forall j | 0 <= j < |keys| :: !Contains(text, Key(keys, j))
  {
    if keys == [] then None
    else if Contains(text, Lower(keys[0])) then Some(0)
    else
      assert forall j | 1 <= j < |keys| :: Key(keys, j) == Key(keys[1..], j - 1);
      match FirstMatch(keys[1..], text)
      case None => None
      case Some(k) => Some(k + 1)
  }

  const Fallback: string :=
    "I'm sorry, I don't have information about that. Please try asking about class timings, exam schedule, campus facilities, admissions, library hours, hostel, canteen, placement, fees, courses, or contact information."

  const Greeting: string := "Hello! I'm your Smart Campus Helper. How can I assist you today?"

  /** The answer for already lower-cased `text`: the first matching entry's, or the fallback. */
  function Answer(table: Table, text: string): (r: string)
    ensures r == Fallback || exists k | 0 <= k < |table| :: r == table[k].1
  {
    match FirstMatch(KeysOf(table), text)
    case Some(k) => table[k].1
    case None => Fallback
  }

  /**
   * The loop of `getBotResponse`, with its early return, over the table it is
   * given; the widget passes `FaqResponses`.
   */
  method GetBotResponse(table: Table, input: string) returns (r: string)
    ensures r == Answer(table, Lower(input))
  {
    var lowerInput := Lower(input);
    for i := 0 to |table|
      invariant forall j | 0 <= j < i :: !Contains(lowerInput, Key(KeysOf(table), j))
    {
      var key := table[i].0;
      var response := table[i].1;
      if Contains(lowerInput, Lower(key)) {
        assert Contains(lowerInput, Key(KeysOf(table), i));
        assert FirstMatch(KeysOf(table), lowerInput) == Some(i);
        return response;
      }
    }
    return Fallback;
  }

  /** Every key is written in lower case, so the matcher compares it as written. */
  predicate LowerKeys(keys: seq<string>) {
    forall k | 0 <= k < |keys| :: Key(keys, k) == keys[k]
  }

  /** The answers are pairwise different texts and none of them is the fallback. */
  predicate DistinctAnswers(answers: seq<string>) {
    && (forall i, j | 0 <= i < j < |answers| :: answers[i] != answers[j])
    && (forall i | 0 <= i < |answers| :: answers[i] != Fallback)
  }

  /** First match wins: for lower-case keys, key `k` is chosen exactly when it occurs and no earlier key does. */
  lemma FirstMatchIff(keys: seq<string>, text: string, k: nat)
    requires LowerKeys(keys) && k < |keys|
    ensures FirstMatch(keys, text) == Some(k)
        <==> Contains(text, keys[k]) && forall j | 0 <= j < k :: !Contains(text, keys[j])
  {
    if Contains(text, keys[k]) && forall j | 0 <= j < k :: !Contains(text, keys[j]) {
      assert Contains(text, Key(keys, k));
    }
  }

  // Properties of the responder over the widget's own table.

  /** The keys of `FAQ_RESPONSES`, in declaration order. */
  const FaqKeys: seq<string> := [
    "class timings", "exam schedule", "admissions", "campus facilities", "library hours", "hostel",
    "canteen", "placement", "fees", "courses", "contact", "what's new"
  ]

  /** The answers of `FAQ_RESPONSES`, in the order of their keys. */
  const FaqAnswers: seq<string> := [
    "Classes run from 9:00 AM to 4:00 PM, Monday to Friday. Lab sessions may extend until 5:00 PM.",
    "End semester exams are scheduled for December 2024. Mid-semester exams will be in October 2024.",
    "Admissions for 2024-25 are closed. Next admissions will open in June 2025. Check our website for updates.",
    "Our campus has modern labs, library, canteen, hostel, sports ground, and computer center with high-speed internet.",
    "Library is open from 8:00 AM to 8:00 PM on weekdays and 9:00 AM to 5:00 PM on weekends.",
    "Hostel accommodation is available for both boys and girls. Contact the hostel warden for room allotment.",
    "Canteen serves breakfast (8-10 AM), lunch (12-2 PM), and snacks (4-6 PM) at subsidized rates.",
    "Our placement cell helps students with internships and job opportunities. Many top companies visit our campus.",
    "Semester fees vary by course. Contact the accounts section for detailed fee structure.",
    "We offer diploma courses in Computer Engineering, Mechanical Engineering, Civil Engineering, and Electronics.",
    "Contact: +91-1905-123456 | Email: info@gptsundernagar.edu.in | Address: Sundernagar, Mandi, HP",
    "Check our News & Events section for the latest updates and upcoming activities."
  ]

  /** `FAQ_RESPONSES`: each key with its answer, in declaration order, the order `Object.entries` visits them in. */
  const FaqResponses: Table := [
    (FaqKeys[0], FaqAnswers[0]),
    (FaqKeys[1], FaqAnswers[1]),
    (FaqKeys[2], FaqAnswers[2]),
    (FaqKeys[3], FaqAnswers[3]),
    (FaqKeys[4], FaqAnswers[4]),
    (FaqKeys[5], FaqAnswers[5]),
    (FaqKeys[6], FaqAnswers[6]),
    (FaqKeys[7], FaqAnswers[7]),
    (FaqKeys[8], FaqAnswers[8]),
    (FaqKeys[9], FaqAnswers[9]),
    (FaqKeys[10], FaqAnswers[10]),
    (FaqKeys[11], FaqAnswers[11])
  ]

  /** The suggestion buttons shown under the greeting. */
  const QuickQuestions: seq<string> := [
    "Class timings",
    "Exam schedule",
    "Campus facilities",
    "Library hours",
    "What's new"
  ]

  /** `getBotResponse`: lower-case the input, then consult the widget's table. */
  function BotResponse(input: string): string {
    Answer(FaqResponses, Lower(input))
  }

  /** The index of the key the widget's matcher chooses for `input`, if any. */
  function Chosen(input: string): Option<nat> {
    FirstMatch(FaqKeys, Lower(input))
  }

  /** The widget's keys are written in lower case. */
  lemma FaqKeysLowerCase()
    ensures LowerKeys(FaqKeys)
  {
    forall k | 0 <= k < |FaqKeys|
      ensures Key(FaqKeys, k) == FaqKeys[k]
    {
      LowerOfLowerCase(FaqKeys[k]);
    }
  }

  /** The widget's twelve answers and the fallback are pairwise different. */
  lemma FaqAnswersDistinct()
    ensures DistinctAnswers(FaqAnswers)
  {
  }

  /** The widget's reply is the answer of the chosen key, or the fallback when none is chosen. */
  lemma ReplyOfChoice(input: string)
    ensures BotResponse(input) == match Chosen(input) case Some(k) => FaqAnswers[k] case None => Fallback
  {
    FaqTableKeys();
  }

  /** The widget's table has the keys `FaqKeys` and the answers `FaqAnswers`, in that order. */
  lemma FaqTableKeys()
    ensures KeysOf(FaqResponses) == FaqKeys
    ensures forall k | 0 <= k < |FaqResponses| :: FaqResponses[k].1 == FaqAnswers[k]
  {
    assert KeysOf(FaqResponses) == FaqKeys;
  }

  /** Every reply is one of the twelve answers or the fallback. */
  lemma ReplyIsKnown(input: string)
    ensures BotResponse(input) == Fallback || BotResponse(input) in FaqAnswers
  {
    ReplyOfChoice(input);
  }

  /**
   * First match wins: the reply is entry `k`'s answer exactly when key `k`
   * occurs in the lower-cased input and no key declared before it does.
   */
  lemma ReplyIsFirstMatch(input: string, k: nat)
    requires k < |FaqKeys|
    ensures BotResponse(input) == FaqAnswers[k]
        <==> Contains(Lower(input), FaqKeys[k]) && forall j | 0 <= j < k :: !Contains(Lower(input), FaqKeys[j])
  {
    ReplyOfChoice(input);
    FaqAnswersDistinct();
    ChosenIsFirstMatch(input, k);
  }

  /** The matcher chooses key `k` exactly when it occurs in the lower-cased input and no earlier key does. */
  lemma ChosenIsFirstMatch(input: string, k: nat)
    requires k < |FaqKeys|
    ensures Chosen(input) == Some(k)
        <==> Contains(Lower(input), FaqKeys[k]) && forall j | 0 <= j < k :: !Contains(Lower(input), FaqKeys[j])
  {
    FaqKeysLowerCase();
    FirstMatchIff(FaqKeys, Lower(input), k);
  }

  /** The fallback is given exactly when no key occurs in the lower-cased input. */
  lemma FallbackIffNoKey(input: string)
    ensures BotResponse(input) == Fallback
        <==> forall j | 0 <= j < |FaqKeys| :: !Contains(Lower(input), FaqKeys[j])
  {
    ReplyOfChoice(input);
    FaqAnswersDistinct();
    FaqKeysLowerCase();
  }

  /**
   * Input shorter than the shortest key ("fees") gets the fallback; in
   * particular the empty input does, since no key is empty.
   */
  lemma ShortInputGetsFallback(input: string)
    requires |input| < 4
    ensures BotResponse(input) == Fallback
  {
    forall j | 0 <= j < |FaqKeys|
      ensures !Contains(Lower(input), FaqKeys[j])
    {
      assert |FaqKeys[j]| >= 4;
    }
    FallbackIffNoKey(input);
  }

  /** The responder ignores case: lower-casing the input first changes nothing. */
  lemma CaseInsensitive(input: string)
    ensures BotResponse(input) == BotResponse(Lower(input))
  {
    LowerIdempotent(input);
  }

  /** Any input mentioning "class timings", in any casing, gets the class-timings answer. */
  lemma ClassTimingsAnswered(input: string)
    requires Contains(Lower(input), "class timings")
    ensures BotResponse(input) == FaqAnswers[0]
  {
    ReplyIsFirstMatch(input, 0);
  }

  /**
   * Declaration order decides between keys: an input mentioning "hostel"
   * never gets the canteen answer, even when it also mentions "canteen";
   * it gets the hostel answer unless a key declared before "hostel" occurs.
   */
  lemma HostelPrecedesCanteen(input: string)
    requires Contains(Lower(input), "hostel")
    ensures BotResponse(input) != FaqAnswers[6]
    ensures (forall j | 0 <= j < 5 :: !Contains(Lower(input), FaqKeys[j])) ==> BotResponse(input) == FaqAnswers[5]
  {
    ReplyIsFirstMatch(input, 5);
    ReplyIsFirstMatch(input, 6);
  }

  /** A question whose lower-cased text is key `k`, and holds no earlier key, has key `k` chosen. */
  lemma OwnKeyChosen(q: string, k: nat)
    requires k < |FaqKeys| && Lower(q) == FaqKeys[k]
    requires forall j | 0 <= j < k :: !Contains(Lower(q), FaqKeys[j])
    ensures Chosen(q) == Some(k)
  {
    assert OccursAt(Lower(q), FaqKeys[k], 0);
    FaqKeysLowerCase();
    FirstMatchIff(FaqKeys, Lower(q), k);
  }

  /** The quick question "Class timings" has the key "class timings" chosen. */
  lemma AskClassTimings()
    ensures Lower(QuickQuestions[0]) == FaqKeys[0] && Chosen(QuickQuestions[0]) == Some(0)
  {
    assert Lower(QuickQuestions[0]) == "class timings";
    OwnKeyChosen(QuickQuestions[0], 0);
  }

  /** The quick question "Exam schedule" has the key "exam schedule" chosen. */
  lemma AskExamSchedule()
    ensures Lower(QuickQuestions[1]) == FaqKeys[1] && Chosen(QuickQuestions[1]) == Some(1)
  {
    assert Lower(QuickQuestions[1]) == "exam schedule";
    PairAbsent("exam schedule", "class timings");
    OwnKeyChosen(QuickQuestions[1], 1);
  }

  /** The quick question "Campus facilities" has the key "campus facilities" chosen. */
  lemma AskCampusFacilities()
    ensures Lower(QuickQuestions[2]) == FaqKeys[3] && Chosen(QuickQuestions[2]) == Some(3)
  {
    assert Lower(QuickQuestions[2]) == "campus facilities";
    PairAbsent("campus facilities", "class timings");
    PairAbsent("campus facilities", "exam schedule");
    PairAbsent("campus facilities", "admissions");
    OwnKeyChosen(QuickQuestions[2], 3);
  }

  /** The quick question "Library hours" has the key "library hours" chosen. */
  lemma AskLibraryHours()
    ensures Lower(QuickQuestions[3]) == FaqKeys[4] && Chosen(QuickQuestions[3]) == Some(4)
  {
    assert Lower(QuickQuestions[3]) == "library hours";
    PairAbsent("library hours", "class timings");
    PairAbsent("library hours", "exam schedule");
    PairAbsent("library hours", "admissions");
    OwnKeyChosen(QuickQuestions[3], 4);
  }

  /** The quick question "What's new" has the key "what's new" chosen. */
  lemma AskWhatsNew()
    ensures Lower(QuickQuestions[4]) == FaqKeys[11] && Chosen(QuickQuestions[4]) == Some(11)
  {
    assert Lower(QuickQuestions[4]) == "what's new";
    PairAbsent("what's new", "admissions");
    PairAbsent("what's new", "hostel");
    PairAbsent("what's new", "canteen");
    PairAbsent("what's new", "placement");
    PairAbsent("what's new", "fees");
    PairAbsent("what's new", "courses");
    PairAbsent("what's new", "contact");
    OwnKeyChosen(QuickQuestions[4], 11);
  }

  /** Every quick question, lower-cased, is one of the keys, and the matcher chooses that key. */
  lemma QuickQuestionsChosen(q: string)
    requires q in QuickQuestions
    ensures exists k | 0 <= k < |FaqKeys| :: FaqKeys[k] == Lower(q) && Chosen(q) == Some(k)
  {
    if q == QuickQuestions[0] {
      AskClassTimings();
    } else if q == QuickQuestions[1] {
      AskExamSchedule();
    } else if q == QuickQuestions[2] {
      AskCampusFacilities();
    } else if q == QuickQuestions[3] {
      AskLibraryHours();
    } else {
      AskWhatsNew();
    }
  }

  /** Every quick question, lower-cased, is one of the keys, and its reply is that key's answer. */
  lemma QuickQuestionsAnswered(q: string)
    requires q in QuickQuestions
    ensures exists k | 0 <= k < |FaqKeys| ::
      FaqKeys[k] == Lower(q) && BotResponse(q) == FaqAnswers[k] && BotResponse(q) != Fallback
  {
    QuickQuestionsChosen(q);
    var k :| 0 <= k < |FaqKeys| && FaqKeys[k] == Lower(q) && Chosen(q) == Some(k);
    ReplyOfChoice(q);
    FaqAnswersDistinct();
    assert FaqAnswers[k] != Fallback;
  }

  /** A question about none of the topics gets the fallback. */
  lemma UnknownTopicGetsFallback(input: string)
    requires Lower(input) == "quantum entanglement"
    ensures BotResponse(input) == Fallback
  {
    NoKeyInUnknownTopic();
    FallbackIffNoKey(input);
  }

  /** None of the keys occurs in "quantum entanglement". */
  lemma NoKeyInUnknownTopic()
    ensures forall j | 0 <= j < |FaqKeys| :: !Contains("quantum entanglement", FaqKeys[j])
  {
    FirstCharAbsent("quantum entanglement", "class timings");
    PairAbsent("quantum entanglement", "exam schedule");
    PairAbsent("quantum entanglement", "admissions");
    FirstCharAbsent("quantum entanglement", "campus facilities");
    PairAbsent("quantum entanglement", "library hours");
    FirstCharAbsent("quantum entanglement", "hostel");
    FirstCharAbsent("quantum entanglement", "canteen");
    FirstCharAbsent("quantum entanglement", "placement");
    FirstCharAbsent("quantum entanglement", "fees");
    FirstCharAbsent("quantum entanglement", "courses");
    FirstCharAbsent("quantum entanglement", "contact");
    FirstCharAbsent("quantum entanglement", "what's new");
  }

  // The conversation log kept by the widget.

  /** One chat bubble; the timestamp is left out. */
  datatype Message = Message(id: string, text: string, isBot: bool)

  const GreetingMessage: Message := Message("1", Greeting, true)

  /** The texts of the user's messages in `log`, in order. */
  function UserTexts(log: seq<Message>): seq<string> {
    if log == [] then []
    else UserTexts(log[..|log| - 1]) + (if log[|log| - 1].isBot then [] else [log[|log| - 1].text])
  }

  /** The texts of the bot's messages in `log`, in order. */
  function BotTexts(log: seq<Message>): seq<string> {
    if log == [] then []
    else BotTexts(log[..|log| - 1]) + (if log[|log| - 1].isBot then [log[|log| - 1].text] else [])
  }

  /** The answer `table` gives to each of `inputs`, in order. */
  function Replies(table: Table, inputs: seq<string>): seq<string> {
    seq(|inputs|, i requires 0 <= i < |inputs| => Answer(table, Lower(inputs[i])))
  }

  lemma TextsAppend(log: seq<Message>, m: Message)
    ensures UserTexts(log + [m]) == UserTexts(log) + (if m.isBot then [] else [m.text])
    ensures BotTexts(log + [m]) == BotTexts(log) + (if m.isBot then [m.text] else [])
  {
    assert (log + [m])[..|log|] == log;
  }

  /**
   * The log answers the user in order: the bot's messages are the greeting
   * followed by the replies to the user's messages, oldest first, except
   * for the most recent ones whose replies are still `pending`.
   */
  ghost predicate Answered(table: Table, log: seq<Message>, pending: seq<string>) {
    var user := UserTexts(log);
    var done := |user| - |pending|;
    done >= 0 && user[done..] == pending && BotTexts(log) == [Greeting] + Replies(table, user[..done])
  }

  /** Sending keeps the log answered in order: the new input joins the pending ones. */
  lemma AnsweredAfterSend(table: Table, log: seq<Message>, pending: seq<string>, id: string, text: string)
    requires Answered(table, log, pending)
    ensures Answered(table, log + [Message(id, text, false)], pending + [text])
  {
    var user := UserTexts(log);
    var done := |user| - |pending|;
    TextsAppend(log, Message(id, text, false));
    assert (user + [text])[..done] == user[..done];
  }

  /** Delivering a reply keeps the log answered in order: the oldest pending input is answered. */
  lemma AnsweredAfterReply(table: Table, log: seq<Message>, pending: seq<string>, id: string)
    requires Answered(table, log, pending) && pending != []
    ensures Answered(table, log + [Message(id, Answer(table, Lower(pending[0])), true)], pending[1..])
  {
    var user := UserTexts(log);
    var done := |user| - |pending|;
    TextsAppend(log, Message(id, Answer(table, Lower(pending[0])), true));
    assert user[done] == pending[0];
    assert user[..done + 1] == user[..done] + [pending[0]];
  }

  /** The state of `ChatBot`: `messages`, `inputValue`, `isTyping`, and the replies its timers will deliver. */
  class ChatSession {
    /** The keyword table replies come from: `FaqResponses` in the widget. */
    const table: Table
    var messages: seq<Message>
    var inputValue: string
    var isTyping: bool
    /** The input captured by each typing-delay timer not yet fired, oldest first. */
    var pending: seq<string>

    ghost predicate Valid()
      reads this
    {
      && |messages| >= 1 && messages[0] == GreetingMessage
      && (isTyping ==> pending != [])
      && Answered(table, messages, pending)
    }

    constructor (table: Table)
      ensures Valid() && this.table == table
      ensures messages == [GreetingMessage] && inputValue == "" && !isTyping && pending == []
    {
      this.table := table;
      messages := [GreetingMessage];
      inputValue := "";
      isTyping := false;
      pending := [];
      assert [GreetingMessage] == [] + [GreetingMessage];
      TextsAppend([], GreetingMessage);
    }

    /** The input box's change handler. */
    method SetInput(text: string)
      requires Valid()
      modifies this
      ensures Valid()
      ensures inputValue == text
      ensures messages == old(messages) && isTyping == old(isTyping) && pending == old(pending)
    {
      inputValue := text;
    }

    /**
     * `handleSendMessage` up to its timer: blank input (after `trim`) is
     * ignored; otherwise the user's message is appended, the input cleared,
     * the typing indicator set and a reply to the input scheduled.
     */
    method SendMessage(id: string) returns (accepted: bool)
      requires Valid()
      modifies this
      ensures Valid()
      ensures accepted <==> Trim(old(inputValue)) != ""
      ensures !accepted ==>
        messages == old(messages) && inputValue == old(inputValue) && isTyping == old(isTyping) && pending == old(pending)
      ensures accepted ==>
        && messages == old(messages) + [Message(id, old(inputValue), false)]
        && inputValue == "" && isTyping && pending == old(pending) + [old(inputValue)]
    {
      if Trim(inputValue) == "" {
        return false;
      }
      AnsweredAfterSend(table, messages, pending, id, inputValue);
      assert (messages + [Message(id, inputValue, false)])[0] == messages[0];
      messages := messages + [Message(id, inputValue, false)];
      pending := pending + [inputValue];
      inputValue := "";
      isTyping := true;
      accepted := true;
    }

    /** The typing-delay timer firing: the bot's answer to the oldest pending input is appended. */
    method DeliverReply(id: string)
      requires Valid() && pending != []
      modifies this
      ensures Valid()
      ensures messages == old(messages) + [Message(id, Answer(table, Lower(old(pending)[0])), true)]
      ensures pending == old(pending)[1..] && !isTyping && inputValue == old(inputValue)
    {
      var reply := GetBotResponse(table, pending[0]);
      AnsweredAfterReply(table, messages, pending, id);
      assert (messages + [Message(id, reply, true)])[0] == messages[0];
      messages := messages + [Message(id, reply, true)];
      pending := pending[1..];
      isTyping := false;
    }
  }
}
