/** The rule-based healthcare assistant (exam-solutions/assignment6/app.py): the medical-keyword redirect,
    the ordered topic rules of `find_response`, the two response formatters, and the bounded chat history. */
module HealthBot {
  import opened Wrappers
  import opened Text

  /** A meal plan of the knowledge base: its name and its entries (`breakfast`, `lunch`, ..., `tips`). */
  datatype Plan = Plan(name: string, entries: map<string, string>)

  /** The loaded `kb_data`. A list key that is absent reads as the empty list, as `kb_data.get(key, [])` does;
      `plans` keeps the order of the JSON object. */
  datatype KnowledgeBase = KnowledgeBase(
    dos: seq<string>,
    donts: seq<string>,
    dietTips: seq<string>,
    hydration: seq<string>,
    exercise: seq<string>,
    safetyKeywords: seq<string>,
    plans: seq<Plan>,
    fallback: Option<string>)

  /** `_get_fallback_kb`: the knowledge base used when `kb.json` is missing or malformed. */
  const FallbackKnowledgeBase := KnowledgeBase(
    ["Aim for 7-9 hours of sleep", "Drink water regularly", "Include vegetables in meals"],
    ["Avoid skipping meals", "Limit sugary drinks", "Don't ignore symptoms"],
    ["Balanced plate: 1/2 veggies, 1/4 protein, 1/4 grains"],
    [],
    [],
    ["chest pain", "emergency", "doctor", "medication", "symptoms"],
    [],
    Some("I can help with general health tips. Try asking about daily do's or diet advice."))

  /** `any(word in text for word in words)`, one word after the other. */
  predicate ContainsAny(words: seq<string>, text: string)
  {
    words != [] && (IsSubstring(words[0], text) || ContainsAny(words[1..], text))
  }

  /** The word-by-word test holds exactly when some word of `words` occurs in `text`. */
  lemma {:induction false} ContainsAnyMeans(words: seq<string>, text: string)
    ensures ContainsAny(words, text) <==> exists k :: 0 <= k < |words| && IsSubstring(words[k], text)
  {
    if words != [] {
      ContainsAnyMeans(words[1..], text);
      assert forall k :: 1 <= k < |words| ==> words[k] == words[1..][k - 1];
      if exists k :: 0 <= k < |words| && IsSubstring(words[k], text) {
        var k :| 0 <= k < |words| && IsSubstring(words[k], text);
        if k > 0 {
          assert IsSubstring(words[1..][k - 1], text);
        }
      }
    }
  }

  /** `is_medical_query`: some safety keyword (as stored, not lower-cased) occurs in the lower-cased message. */
  predicate IsMedicalQuery(kb: KnowledgeBase, message: string)
  {
    ContainsAny(kb.safetyKeywords, Lower(message))
  }

  /** A message is medical exactly when one of the stored safety keywords occurs in its lower-cased form. */
  lemma MedicalQueryMeans(kb: KnowledgeBase, message: string)
    ensures IsMedicalQuery(kb, message) <==>
            exists k :: 0 <= k < |kb.safetyKeywords| && IsSubstring(kb.safetyKeywords[k], Lower(message))
  {
    ContainsAnyMeans(kb.safetyKeywords, Lower(message));
  }

  /** `get_safety_response`. The emoji before the request to consult a professional is kept character for
      character as the source file spells it. */
  const SafetyResponse: string :=
    "I can't help with medical issues, symptoms, or diagnoses. \n\n"
    + "ðŸ¥ **Please consult a healthcare professional or emergency services for:**\n"
    + "- Any symptoms or health concerns\n"
    + "- Medical advice or diagnoses\n"
    + "- Medication questions\n"
    + "- Emergency situations\n\n"
    + "I'm here to help with general wellness tips, diet planning, and healthy lifestyle advice only."

  const DefaultFallback := "I can help with health tips, diet plans, and wellness advice. What would you like to know?"

  /** The trigger words of each topic rule of `find_response`, in rule order. */
  const DosWords: seq<string> := ["do", "dos", "do's", "should do"]
  const DontsWords: seq<string> := ["dont", "don't", "donts", "don'ts", "avoid", "should not"]
  const DietWords: seq<string> := ["diet", "nutrition", "eating", "food"]
  const HydrationWords: seq<string> := ["hydration", "water", "drink"]
  const ExerciseWords: seq<string> := ["exercise", "workout", "fitness", "activity"]

  // ---------------------------------------------------------------- list responses

  /** The bullet, as spelled in the source file. */
  const Bullet: string := "â€¢"

  const ListDisclaimer := "\nRemember, these are general guidelines. For personalized advice, consult a healthcare professional."

  function BulletLines(items: seq<string>): (r: seq<string>)
    ensures |r| == |items|
    ensures forall k :: 0 <= k < |items| ==> r[k] == Bullet + " " + items[k]
  {
    seq(|items|, k requires 0 <= k < |items| => Bullet + " " + items[k])
  }

  function ListHeader(title: string): string
  {
    "**" + title + ":**\n\n"
  }

  /** What `_format_list_response` returns. */
  function ListResponse(title: string, items: seq<string>): string
  {
    if items == [] then "I don't have specific information about " + Lower(title) + " right now."
    else ListHeader(title) + Lines(BulletLines(items)) + ListDisclaimer
  }

  /** A non-empty list response holds one bullet line per item, in order, between the header and the disclaimer. */
  lemma ListResponseLines(title: string, items: seq<string>)
    requires items != []
    requires forall k :: 0 <= k < |items| ==> '\n' !in items[k]
    ensures exists body :: ListResponse(title, items) == ListHeader(title) + body + ListDisclaimer
                           && Split(body, '\n') == BulletLines(items) + [""]
  {
    var lines := BulletLines(items);
    forall k | 0 <= k < |lines|
      ensures '\n' !in lines[k]
    {
      assert lines[k] == Bullet + " " + items[k];
      assert '\n' !in Bullet + " ";
    }
    SplitLines(lines);
  }

  /** `_format_list_response`: the header, then `response += ...` one bullet line per item, then the disclaimer. */
  method FormatListResponse(title: string, items: seq<string>) returns (response: string)
    ensures response == ListResponse(title, items)
  {
    if |items| == 0 {
      return "I don't have specific information about " + Lower(title) + " right now.";
    }
    response := AppendBulletLines(ListHeader(title), items);
    response := response + ListDisclaimer;
  }

  /** The loop of `_format_list_response`: one bullet line per item appended to `start`. */
  method AppendBulletLines(start: string, items: seq<string>) returns (response: string)
    ensures response == start + Lines(BulletLines(items))
  {
    response := start;
    var i := 0;
    while i < |items|
      invariant 0 <= i <= |items|
      invariant response == start + Lines(BulletLines(items[..i]))
    {
      LinesAppend(BulletLines(items[..i]), Bullet + " " + items[i]);
      assert BulletLines(items[..i + 1]) == BulletLines(items[..i]) + [Bullet + " " + items[i]];
      response := response + Bullet + " " + items[i] + "\n";
      i := i + 1;
    }
    assert items[..i] == items;
  }

  // ---------------------------------------------------------------- meal plans

  /** The meals a plan can list, in the order they are shown. */
  const Meals: seq<string> := ["breakfast", "lunch", "snack", "dinner"]

  const PlanDisclaimer := "\nThis is a general plan. For personalized nutrition advice, consult a registered dietitian."

  function MealLine(meal: string, text: string): string
  {
    "**" + Title(meal) + ":** " + text
  }

  /** The lines of the meals of `meals` that the plan has, in the order of `meals`. */
  function MealLines(data: map<string, string>, meals: seq<string>): (r: seq<string>)
    ensures |r| <= |meals|
  {
    if meals == [] then []
    else
      var last := meals[|meals| - 1];
      MealLines(data, meals[..|meals| - 1]) + (if last in data then [MealLine(last, data[last])] else [])
  }

  function PlanHeader(planName: string): string
  {
    "**" + planName + " Plan:**\n\n"
  }

  function TipsLine(data: map<string, string>): string
  {
    if "tips" in data then "\n**Tips:** " + data["tips"] + "\n" else ""
  }

  /** What `_format_meal_plan` returns. */
  function MealPlanResponse(planName: string, data: map<string, string>): string
  {
    if |data| == 0 then "I don't have a " + planName + " plan available right now."
    else PlanHeader(planName) + Lines(MealLines(data, Meals)) + TipsLine(data) + PlanDisclaimer
  }

  /** The meal lines are those of the meals the plan has, always in the order breakfast, lunch, snack, dinner. */
  lemma MealLinesInOrder(data: map<string, string>)
    ensures MealLines(data, Meals) ==
              (if "breakfast" in data then [MealLine("breakfast", data["breakfast"])] else [])
              + (if "lunch" in data then [MealLine("lunch", data["lunch"])] else [])
              + (if "snack" in data then [MealLine("snack", data["snack"])] else [])
              + (if "dinner" in data then [MealLine("dinner", data["dinner"])] else [])
  {
    var one: seq<string> := ["breakfast"];
    var two: seq<string> := ["breakfast", "lunch"];
    var three: seq<string> := ["breakfast", "lunch", "snack"];
    assert one[..0] == [] && two[..1] == one && three[..2] == two && Meals[..3] == three;
    assert MealLines(data, one) == (if "breakfast" in data then [MealLine("breakfast", data["breakfast"])] else []);
    assert MealLines(data, two) == MealLines(data, one) + (if "lunch" in data then [MealLine("lunch", data["lunch"])] else []);
    assert MealLines(data, three) == MealLines(data, two) + (if "snack" in data then [MealLine("snack", data["snack"])] else []);
  }

  /** With meal names and entries free of newlines, every meal line is a single line. */
  lemma {:induction false} MealLinesSingle(data: map<string, string>, meals: seq<string>)
    requires forall m :: m in data ==> '\n' !in data[m]
    requires forall k :: 0 <= k < |meals| ==> '\n' !in meals[k]
    ensures forall k :: 0 <= k < |MealLines(data, meals)| ==> '\n' !in MealLines(data, meals)[k]
  {
    if meals != [] {
      var last := meals[|meals| - 1];
      MealLinesSingle(data, meals[..|meals| - 1]);
      if last in data {
        TitleKeepsNonLetter(last, '\n');
        assert '\n' !in "**" + Title(last) + ":** " + data[last];
      }
    }
  }

  /** A non-empty plan response holds one line per meal the plan has, in order, then the tips line if any. */
  lemma MealPlanLines(planName: string, data: map<string, string>)
    requires |data| > 0
    requires forall m :: m in data ==> '\n' !in data[m]
    ensures exists body :: MealPlanResponse(planName, data) == PlanHeader(planName) + body + TipsLine(data) + PlanDisclaimer
                           && Split(body, '\n') == MealLines(data, Meals) + [""]
  {
    MealLinesSingle(data, Meals);
    SplitLines(MealLines(data, Meals));
  }

  /** The meal loop of `_format_meal_plan`: for each meal in turn, `response += ...` its line when the plan has it. */
  method AppendMealLines(start: string, planData: map<string, string>, meals: seq<string>) returns (response: string)
    ensures response == start + Lines(MealLines(planData, meals))
  {
    response := start;
    var i := 0;
    while i < |meals|
      invariant 0 <= i <= |meals|
      invariant response == start + Lines(MealLines(planData, meals[..i]))
    {
      var meal := meals[i];
      assert meals[..i + 1][..i] == meals[..i] && meals[..i + 1][i] == meal;
      if meal in planData {
        var line := MealLine(meal, planData[meal]);
        assert MealLines(planData, meals[..i + 1]) == MealLines(planData, meals[..i]) + [line];
        LinesAppend(MealLines(planData, meals[..i]), line);
        response := response + line + "\n";
      } else {
        assert MealLines(planData, meals[..i + 1]) == MealLines(planData, meals[..i]);
      }
      i := i + 1;
    }
    assert meals[..i] == meals;
  }

  /** `_format_meal_plan`: the header, then one line per present meal in the fixed order, the tips line when
      there are tips, then the disclaimer. */
  method FormatMealPlan(planName: string, planData: map<string, string>) returns (response: string)
    ensures response == MealPlanResponse(planName, planData)
  {
    if |planData| == 0 {
      return "I don't have a " + planName + " plan available right now.";
    }
    ghost var body := Lines(MealLines(planData, Meals));
    response := AppendMealLines(PlanHeader(planName), planData, Meals);
    assert response == PlanHeader(planName) + body;
    if "tips" in planData {
      response := response + "\n**Tips:** " + planData["tips"] + "\n";
    }
    assert response == PlanHeader(planName) + body + TipsLine(planData);
    response := response + PlanDisclaimer;
  }

  // ---------------------------------------------------------------- find_response

  /** The meal-plan rule: the plan name (not lower-cased) or one of its words occurs in the lower-cased message. */
  predicate PlanMatches(p: Plan, lowered: string)
  {
    IsSubstring(p.name, lowered) || ContainsAny(SplitWords(p.name), lowered)
  }

  /** The index of the first `true`, if any. */
  function FirstTrue(bs: seq<bool>): (r: Option<nat>)
    ensures r.None? <==> forall k :: 0 <= k < |bs| ==> !bs[k]
    ensures r.Some? ==> r.value < |bs| && bs[r.value] && forall j :: 0 <= j < r.value ==> !bs[j]
  {
    if bs == [] then None
    else if bs[0] then Some(0)
    else
      match FirstTrue(bs[1..])
      case None => None
      case Some(k) => Some(k + 1)
  }

  /** For each plan, whether the message asks for it. */
  function PlanMatchList(plans: seq<Plan>, lowered: string): (r: seq<bool>)
    ensures |r| == |plans| && forall k :: 0 <= k < |plans| ==> r[k] == PlanMatches(plans[k], lowered)
  {
    seq(|plans|, k requires 0 <= k < |plans| => PlanMatches(plans[k], lowered))
  }

  /** The response of the meal-plan rule and of the fallback, tried when no topic rule matched. */
  function PlanOrFallback(kb: KnowledgeBase, lowered: string): string
  {
    match FirstTrue(PlanMatchList(kb.plans, lowered))
    case Some(k) => MealPlanResponse(Title(kb.plans[k].name), kb.plans[k].entries)
    case None => if kb.fallback.Some? then kb.fallback.value else DefaultFallback
  }

  /** The plan chosen is the first plan the message asks for. */
  lemma FirstPlanChosen(kb: KnowledgeBase, lowered: string, k: nat)
    requires k < |kb.plans| && PlanMatches(kb.plans[k], lowered)
    requires forall j :: 0 <= j < k ==> !PlanMatches(kb.plans[j], lowered)
    ensures PlanOrFallback(kb, lowered) == MealPlanResponse(Title(kb.plans[k].name), kb.plans[k].entries)
  {
    var bs := PlanMatchList(kb.plans, lowered);
    assert bs[k] && forall j :: 0 <= j < k ==> !bs[j];
    FirstTrueAt(bs, k);
  }

  /** A `true` with only `false` before it is the first. */
  lemma FirstTrueAt(bs: seq<bool>, k: nat)
    requires k < |bs| && bs[k]
    requires forall j :: 0 <= j < k ==> !bs[j]
    ensures FirstTrue(bs) == Some(k)
  {
    var first := FirstTrue(bs);
    assert bs[first.value];
  }

  /** When the message asks for no plan, the stored fallback text answers, or the built-in one without it. */
  lemma NoPlanFallback(kb: KnowledgeBase, lowered: string)
    requires forall k :: 0 <= k < |kb.plans| ==> !PlanMatches(kb.plans[k], lowered)
    ensures PlanOrFallback(kb, lowered) == if kb.fallback.Some? then kb.fallback.value else DefaultFallback
  {
    var bs := PlanMatchList(kb.plans, lowered);
    assert forall k :: 0 <= k < |bs| ==> !bs[k];
  }

  /** `find_response`: the safety redirect for a medical message, otherwise the first topic rule that matches,
      in the order do's, don'ts, diet, hydration, exercise, meal plans, and otherwise the fallback text. */
  function FindResponse(kb: KnowledgeBase, message: string): string
  {
    var lowered := Lower(message);
    if IsMedicalQuery(kb, message) then SafetyResponse
    else if ContainsAny(DosWords, lowered) then ListResponse("Daily Health Do's", kb.dos)
    else if ContainsAny(DontsWords, lowered) then ListResponse("Daily Health Don'ts", kb.donts)
    else if ContainsAny(DietWords, lowered) then ListResponse("Diet Tips", kb.dietTips)
    else if ContainsAny(HydrationWords, lowered) then ListResponse("Hydration Tips", kb.hydration)
    else if ContainsAny(ExerciseWords, lowered) then ListResponse("Exercise Tips", kb.exercise)
    else PlanOrFallback(kb, lowered)
  }

  /** The safety rule comes first, the do's rule next, and the meal plans and the fallback only when no topic
      rule matched. */
  lemma FindResponseRules(kb: KnowledgeBase, message: string)
    ensures IsMedicalQuery(kb, message) ==> FindResponse(kb, message) == SafetyResponse
    ensures !IsMedicalQuery(kb, message) && ContainsAny(DosWords, Lower(message)) ==>
      FindResponse(kb, message) == ListResponse("Daily Health Do's", kb.dos)
    ensures var lowered := Lower(message);
      !IsMedicalQuery(kb, message) && !ContainsAny(DosWords, lowered) && ContainsAny(DontsWords, lowered) ==>
      FindResponse(kb, message) == ListResponse("Daily Health Don'ts", kb.donts)
    ensures var lowered := Lower(message);
      !IsMedicalQuery(kb, message) && !ContainsAny(DosWords, lowered) && !ContainsAny(DontsWords, lowered)
      && ContainsAny(DietWords, lowered) ==>
      FindResponse(kb, message) == ListResponse("Diet Tips", kb.dietTips)
    ensures var lowered := Lower(message);
      !IsMedicalQuery(kb, message) && !ContainsAny(DosWords, lowered) && !ContainsAny(DontsWords, lowered)
      && !ContainsAny(DietWords, lowered) && ContainsAny(HydrationWords, lowered) ==>
      FindResponse(kb, message) == ListResponse("Hydration Tips", kb.hydration)
    ensures var lowered := Lower(message);
      !IsMedicalQuery(kb, message) && !ContainsAny(DosWords, lowered) && !ContainsAny(DontsWords, lowered)
      && !ContainsAny(DietWords, lowered) && !ContainsAny(HydrationWords, lowered) && ContainsAny(ExerciseWords, lowered) ==>
      FindResponse(kb, message) == ListResponse("Exercise Tips", kb.exercise)
    ensures var lowered := Lower(message);
      !IsMedicalQuery(kb, message) && !ContainsAny(DosWords, lowered) && !ContainsAny(DontsWords, lowered)
      && !ContainsAny(DietWords, lowered) && !ContainsAny(HydrationWords, lowered) && !ContainsAny(ExerciseWords, lowered)
      ==> FindResponse(kb, message) == PlanOrFallback(kb, lowered)
  {
  }

  /** Because "do" occurs in "don't", "dont", "donts" and "don'ts", a non-medical message with any of the
      don'ts words other than "avoid" and "should not" always gets the do's list. */
  lemma DosShadowDonts(kb: KnowledgeBase, message: string, w: string)
    requires !IsMedicalQuery(kb, message)
    requires w in ["dont", "don't", "donts", "don'ts"] && IsSubstring(w, Lower(message))
    ensures FindResponse(kb, message) == ListResponse("Daily Health Do's", kb.dos)
  {
    assert OccursAt("do", w, 0);
    SubstringTransitive("do", w, Lower(message));
    assert DosWords[0] == "do";
    ContainsAnyMeans(DosWords, Lower(message));
  }

  /** `.title()` on a plan name only changes letter case, so the plan response names the plan as stored,
      up to case. */
  lemma PlanTitleKeepsName(p: Plan)
    ensures Lower(Title(p.name)) == Lower(p.name)
  {
    TitleOnlyChangesCase(p.name);
  }

  predicate HasUpper(s: string)
  {
    exists k | 0 <= k < |s| :: IsUpper(s[k])
  }

  /** The message is lower-cased but plan names are not: a plan whose name and every word of it contain a
      capital letter can never be selected. */
  lemma CapitalisedPlanNeverMatches(p: Plan, message: string)
    requires HasUpper(p.name)
    requires forall k :: 0 <= k < |SplitWords(p.name)| ==> HasUpper(SplitWords(p.name)[k])
    ensures !PlanMatches(p, Lower(message))
  {
    var lowered := Lower(message);
    LowerHasNoCapitals(message);
    UpperNeverInLowered(p.name, lowered);
    var words := SplitWords(p.name);
    forall k | 0 <= k < |words|
      ensures !IsSubstring(words[k], lowered)
    {
      UpperNeverInLowered(words[k], lowered);
    }
    ContainsAnyMeans(words, lowered);
  }

  lemma UpperNeverInLowered(w: string, lowered: string)
    requires HasUpper(w)
    requires forall k :: 0 <= k < |lowered| ==> !IsUpper(lowered[k])
    ensures !IsSubstring(w, lowered)
  {
    var j :| 0 <= j < |w| && IsUpper(w[j]);
    forall i | 0 <= i <= |lowered|
      ensures !OccursAt(w, lowered, i)
    {
      if i <= |lowered| - |w| {
        assert !IsUpper(lowered[i..i + |w|][j]);
      }
    }
  }

  // ---------------------------------------------------------------- chat

  /** The language model as seen by `chat`: no client configured, a reply, or a failed call. */
  datatype Assistant = Offline | Answered(text: string) | CallFailed

  /** The bot's reply in `chat`: the model's stripped answer for a non-medical message when a client is configured
      and the call succeeds; the knowledge base otherwise. */
  function BotResponse(kb: KnowledgeBase, message: string, assistant: Assistant): string
  {
    if assistant.Answered? && !IsMedicalQuery(kb, message) then Strip(assistant.text)
    else FindResponse(kb, message)
  }

  /** The model is never consulted on a medical message, and without an answer the knowledge base replies. */
  lemma BotResponseRules(kb: KnowledgeBase, message: string, assistant: Assistant)
    ensures IsMedicalQuery(kb, message) ==> BotResponse(kb, message, assistant) == SafetyResponse
    ensures !assistant.Answered? ==> BotResponse(kb, message, assistant) == FindResponse(kb, message)
    ensures assistant.Answered? && !IsMedicalQuery(kb, message) ==> BotResponse(kb, message, assistant) == Strip(assistant.text)
  {
    FindResponseRules(kb, message);
  }

  datatype Sender = User | Bot

  datatype ChatEntry = ChatEntry(content: string, sender: Sender, timestamp: string)

  const MaxChatHistory: nat := 5

  /** The last `MaxChatHistory` entries of `history`. */
  function Recent(history: seq<ChatEntry>): (r: seq<ChatEntry>)
    ensures |r| == if |history| > MaxChatHistory then MaxChatHistory else |history|
    ensures r == history[|history| - |r|..]
  {
    if |history| > MaxChatHistory then history[|history| - MaxChatHistory..] else history
  }

  /** Keeping the last five after each of two appends is keeping the last five after both, and the two new
      entries end the result in the order they were added. */
  lemma RecentTwice(history: seq<ChatEntry>, a: ChatEntry, b: ChatEntry)
    ensures Recent(Recent(history + [a]) + [b]) == Recent(history + [a, b])
    ensures var r := Recent(history + [a, b]); |r| >= 2 && r[|r| - 2] == a && r[|r| - 1] == b
  {
    var once := Recent(history + [a]);
    var both := history + [a, b];
    assert once + [b] == both[|both| - |once| - 1..];
  }

  /** `after` is `before` with the user's entry and then the bot's appended and trimmed to the last five; the two
      new entries end it. */
  predicate Exchanged(before: seq<ChatEntry>, after: seq<ChatEntry>, user: ChatEntry, bot: ChatEntry)
  {
    && after == Recent(before + [user, bot])
    && |after| >= 2
    && after[|after| - 2] == user
    && after[|after| - 1] == bot
  }

  /** The reply of the `/chat` route. */
  datatype ChatReply = BadRequest(error: string) | Reply(response: string, timestamp: string)

  /** The session's chat history. */
  class ChatSession {
    var chatHistory: seq<ChatEntry>

    constructor ()
      ensures chatHistory == []
    {
      chatHistory := [];
    }

    /** `add_to_chat_history`: appends the entry and keeps only the last five. */
    method AddToChatHistory(message: string, sender: Sender, timestamp: string)
      modifies this
      ensures chatHistory == Recent(old(chatHistory) + [ChatEntry(message, sender, timestamp)])
      ensures 1 <= |chatHistory| <= MaxChatHistory
      ensures chatHistory[|chatHistory| - 1] == ChatEntry(message, sender, timestamp)
    {
      var history := chatHistory + [ChatEntry(message, sender, timestamp)];
      if |history| > MaxChatHistory {
        history := history[|history| - MaxChatHistory..];
      }
      chatHistory := history;
    }

    /** The `/chat` route: a missing message, or one that is blank after stripping, is refused with 400 and the
        history kept; otherwise the stripped message and then the bot's reply are added to the history. */
    method Chat(kb: KnowledgeBase, message: Option<string>, assistant: Assistant,
                userTime: string, botTime: string, replyTime: string) returns (reply: ChatReply)
      modifies this
      ensures message.None? ==> reply == BadRequest("No message provided") && chatHistory == old(chatHistory)
      ensures message.Some? && AllSpace(message.value) ==> reply == BadRequest("Empty message") && chatHistory == old(chatHistory)
      ensures message.Some? && !AllSpace(message.value) ==>
        var userMessage := Strip(message.value);
        var botMessage := BotResponse(kb, userMessage, assistant);
        && reply == Reply(botMessage, replyTime)
        && Exchanged(old(chatHistory), chatHistory, ChatEntry(userMessage, User, userTime), ChatEntry(botMessage, Bot, botTime))
    {
      if message.None? {
        return BadRequest("No message provided");
      }
      var userMessage := Strip(message.value);
      StripEmptyIff(message.value);
      if |userMessage| == 0 {
        return BadRequest("Empty message");
      }
      var botMessage := BotResponse(kb, userMessage, assistant);
      Converse(userMessage, userTime, botMessage, botTime);
      reply := Reply(botMessage, replyTime);
    }

    /** Adds a user message and the bot's reply to the history. */
    method Converse(userMessage: string, userTime: string, botMessage: string, botTime: string)
      modifies this
      ensures Exchanged(old(chatHistory), chatHistory, ChatEntry(userMessage, User, userTime), ChatEntry(botMessage, Bot, botTime))
    {
      ghost var before := chatHistory;
      AddToChatHistory(userMessage, User, userTime);
      AddToChatHistory(botMessage, Bot, botTime);
      RecentTwice(before, ChatEntry(userMessage, User, userTime), ChatEntry(botMessage, Bot, botTime));
    }

    /** The `/clear-history` route. */
    method ClearHistory()
      modifies this
      ensures chatHistory == []
    {
      chatHistory := [];
    }
  }
}
