/** The stateful agent (`ConversationalAmazonAgent`): the shopping session, the product store
    and the message transcript that `reset`, `detect_user_intent`, `extract_product_info` and
    `chat` update. The model client and the tool client are replaced by their answers, which
    `Chat` takes as a parameter. */
module Agent {
  import opened Wrappers
  import opened Text
  import Intent
  import opened Products
  import opened Links
  import opened Response

  datatype Role = User | Assistant

  /** What `json.dumps` serialises into a tool result turn. */
  datatype ToolContent =
    | LinksJson(links: seq<string>)       // {"links": product_links}
    | MessageJson(message: string)        // {"message": ...}
    | Passed(json: string)                // the tool's own result

  /** The content of one transcript turn. `Brief` stands for the fixed instructions of the
      opening turn, whose wording is not modelled. */
  datatype Content =
    | Brief
    | TextBlock(text: string)
    | ToolUse(id: string, name: string, input: string)
    | ToolResult(toolUseId: string, result: ToolContent)

  datatype Message = Message(role: Role, content: Content)

  /** One entry of `conversation_context`. */
  datatype ContextEntry = ContextEntry(userInput: string, intent: Intent.Intent, timestamp: string)

  /** The tool client's answer to one call, as each of its readers sees it: the search-result
      filter, the scrape reader, and `json.dumps`. */
  datatype ToolData = ToolData(search: SearchPayload, scrape: ScrapePayload, json: string)

  /** The last content block of one model response; a tool call carries the tool client's
      answer to it. */
  datatype ModelReply =
    | ToolCall(id: string, name: string, input: string, data: ToolData)
    | Answer(text: string)

  const SearchTool := "BRAVE_SEARCH__WEB_SEARCH"
  const ScrapeTool := "FIRECRAWL__BATCH_SCRAPE"
  const NoProductsMessage :=
    "No specific products found in this search. Let me try a different approach or get more details."
  const Greeting :=
    "Hey there! I'm your personal shopping assistant, and I'm super excited to help you find exactly what you're looking for on Amazon today. What can I help you discover?"
  const Timestamp := "now"

  /** The two turns `reset` starts every conversation with. */
  function Primer(): seq<Message> {
    [Message(User, Brief), Message(Assistant, TextBlock(Greeting))]
  }

  // ---------------------------------------------------------------------------
  // The transcript

  /** Turn `k` is the user's when `k` is even and the assistant's when it is odd. */
  predicate RoleAt(ms: seq<Message>, k: nat)
    requires k < |ms|
  {
    ms[k].role == (if k % 2 == 0 then User else Assistant)
  }

  /** Turns alternate, the user's first, and the transcript ends on the assistant's turn. */
  predicate Alternates(ms: seq<Message>) {
    |ms| % 2 == 0 && forall k :: 0 <= k < |ms| ==> RoleAt(ms, k)
  }

  /** A tool use at `k` is answered by the next turn under the same id, and a tool result at
      `k` answers the turn before it. */
  predicate AnsweredAt(ms: seq<Message>, k: nat)
    requires k < |ms|
  {
    && (ms[k].content.ToolUse? ==>
          k + 1 < |ms| && ms[k + 1].content.ToolResult? && ms[k + 1].content.toolUseId == ms[k].content.id)
    && (ms[k].content.ToolResult? ==>
          0 < k && ms[k - 1].content.ToolUse? && ms[k - 1].content.id == ms[k].content.toolUseId)
  }

  /** Every tool use is answered and every tool result answers one. */
  predicate ToolsAnswered(ms: seq<Message>) {
    forall k :: 0 <= k < |ms| ==> AnsweredAt(ms, k)
  }

  /** The texts the user typed, in order. */
  function UserInputs(ms: seq<Message>): seq<string>
    decreases |ms|
  {
    if |ms| == 0 then []
    else
      var n := |ms| - 1;
      UserInputs(ms[..n]) + (if ms[n].role == User && ms[n].content.TextBlock? then [ms[n].content.text] else [])
  }

  function Inputs(ctx: seq<ContextEntry>): seq<string> {
    seq(|ctx|, k requires 0 <= k < |ctx| => ctx[k].userInput)
  }

  lemma InputsAppend(ctx: seq<ContextEntry>, e: ContextEntry)
    ensures Inputs(ctx + [e]) == Inputs(ctx) + [e.userInput]
  {
  }

  lemma {:induction false} UserInputsAppend(a: seq<Message>, b: seq<Message>)
    ensures UserInputs(a + b) == UserInputs(a) + UserInputs(b)
    decreases |b|
  {
    if |b| == 0 {
      assert a + b == a;
    } else {
      var n := |b| - 1;
      assert (a + b)[..|a| + n] == a + b[..n];
      UserInputsAppend(a, b[..n]);
    }
  }

  /** Turns none of which the user typed add no input. */
  lemma {:induction false} NoUserInputs(ms: seq<Message>)
    requires forall k :: 0 <= k < |ms| ==> !ms[k].content.TextBlock?
    ensures UserInputs(ms) == []
    decreases |ms|
  {
    if |ms| > 0 {
      var n := |ms| - 1;
      assert forall k :: 0 <= k < n ==> ms[..n][k] == ms[k];
      NoUserInputs(ms[..n]);
    }
  }

  lemma AppendAssoc<T>(a: seq<T>, b: seq<T>, c: seq<T>)
    ensures (a + b) + c == a + (b + c)
  {
  }

  lemma AlternatesAppend(a: seq<Message>, b: seq<Message>)
    requires Alternates(a) && Alternates(b)
    ensures Alternates(a + b)
  {
    forall k | 0 <= k < |a + b| ensures RoleAt(a + b, k) {
      if k < |a| {
        assert RoleAt(a, k) && (a + b)[k] == a[k];
      } else {
        assert RoleAt(b, k - |a|) && (a + b)[k] == b[k - |a|];
        assert (k - |a|) % 2 == k % 2;
      }
    }
  }

  /** Two transcripts each of which answers its own tool uses still do so end to end. */
  lemma ToolsAnsweredAppend(a: seq<Message>, b: seq<Message>)
    requires ToolsAnswered(a) && ToolsAnswered(b)
    ensures ToolsAnswered(a + b)
  {
    var s := a + b;
    forall k | 0 <= k < |s| ensures AnsweredAt(s, k) {
      if k < |a| {
        assert AnsweredAt(a, k) && s[k] == a[k];
        if k + 1 < |a| { assert s[k + 1] == a[k + 1]; }
        if 0 < k { assert s[k - 1] == a[k - 1]; }
      } else {
        var j := k - |a|;
        assert AnsweredAt(b, j) && s[k] == b[j];
        if j + 1 < |b| { assert s[k + 1] == b[j + 1]; }
        if 0 < j { assert s[k - 1] == b[j - 1]; }
      }
    }
  }

  // ---------------------------------------------------------------------------
  // The tool loop

  /** One chat's model responses: tool calls, then a text answer. */
  predicate Replies(rs: seq<ModelReply>) {
    |rs| > 0 && rs[|rs| - 1].Answer? && forall k :: 0 <= k < |rs| - 1 ==> rs[k].ToolCall?
  }

  /** What the loop sends back for a call: a search result goes through the link filter, with
      the fixed message when no link survives; any other result is passed on as it is. */
  predicate Answers(c: ModelReply, r: ToolContent)
    requires c.ToolCall?
  {
    if c.name == SearchTool then
      if Candidates(c.data.search) == {} then r == MessageJson(NoProductsMessage)
      else r.LinksJson? && Picked(c.data.search, r.links)
    else r == Passed(c.data.json)
  }

  /** The two turns the loop appends for a call. */
  predicate ToolPair(c: ModelReply, use: Message, answer: Message)
    requires c.ToolCall?
  {
    use == Message(Assistant, ToolUse(c.id, c.name, c.input))
    && answer.role == User && answer.content.ToolResult? && answer.content.toolUseId == c.id
    && Answers(c, answer.content.result)
  }

  /** The turns the loop appends for `calls`, two per call, in order. */
  predicate ToolTurns(calls: seq<ModelReply>, turns: seq<Message>) {
    |turns| == 2 * |calls| && forall k :: 0 <= k < |calls| ==> CallTurns(calls, turns, k)
  }

  /** Turns `2k` and `2k + 1` are the pair for call `k`. */
  predicate CallTurns(calls: seq<ModelReply>, turns: seq<Message>, k: nat)
    requires k < |calls| && |turns| == 2 * |calls|
  {
    calls[k].ToolCall? && ToolPair(calls[k], turns[2 * k], turns[2 * k + 1])
  }

  lemma ToolTurnsStep(calls: seq<ModelReply>, turns: seq<Message>, c: ModelReply, use: Message, answer: Message)
    requires ToolTurns(calls, turns) && c.ToolCall? && ToolPair(c, use, answer)
    ensures ToolTurns(calls + [c], turns + [use, answer])
  {
    var cs := calls + [c];
    var ts := turns + [use, answer];
    forall k | 0 <= k < |cs| ensures CallTurns(cs, ts, k) {
      if k < |calls| {
        assert CallTurns(calls, turns, k);
        assert cs[k] == calls[k] && ts[2 * k] == turns[2 * k] && ts[2 * k + 1] == turns[2 * k + 1];
      } else {
        assert ts[2 * k] == use && ts[2 * k + 1] == answer;
      }
    }
  }

  /** A search answer carries the fixed message exactly when the filter leaves no link, and
      otherwise between one and five of the surviving links. */
  lemma SearchAnswer(c: ModelReply, r: ToolContent)
    requires c.ToolCall? && c.name == SearchTool && Answers(c, r)
    ensures r == MessageJson(NoProductsMessage) <==> Candidates(c.data.search) == {}
    ensures r.LinksJson? ==> 0 < |r.links| <= MaxLinks
    ensures r.LinksJson? ==> forall k :: 0 <= k < |r.links| ==> r.links[k] in Candidates(c.data.search)
  {
    if Candidates(c.data.search) != {} {
      var l :| l in Candidates(c.data.search);
      assert |Candidates(c.data.search)| > 0;
    }
  }

  /** The two turns of call `j`: the assistant's tool use and the user turn answering it. */
  lemma PairAt(calls: seq<ModelReply>, turns: seq<Message>, j: nat)
    requires ToolTurns(calls, turns) && j < |calls|
    ensures turns[2 * j].role == Assistant && turns[2 * j].content.ToolUse?
    ensures turns[2 * j + 1].role == User && turns[2 * j + 1].content.ToolResult?
    ensures turns[2 * j + 1].content.toolUseId == turns[2 * j].content.id
  {
    assert CallTurns(calls, turns, j);
  }

  /** The tool turns of one chat go assistant, user, assistant, …, and answer each tool use;
      none of them is text. */
  lemma ToolTurnsWellFormed(calls: seq<ModelReply>, turns: seq<Message>)
    requires ToolTurns(calls, turns)
    ensures ToolsAnswered(turns)
    ensures forall k :: 0 <= k < |turns| ==> turns[k].role == (if k % 2 == 0 then Assistant else User)
    ensures forall k :: 0 <= k < |turns| ==> !turns[k].content.TextBlock?
  {
    forall k | 0 <= k < |turns|
      ensures turns[k].role == (if k % 2 == 0 then Assistant else User)
      ensures turns[k].content.ToolUse? || turns[k].content.ToolResult?
      ensures turns[k].content.ToolUse? <==> k % 2 == 0
    {
      PairAt(calls, turns, k / 2);
      assert k == 2 * (k / 2) || k == 2 * (k / 2) + 1;
    }
    forall k | 0 <= k < |turns| ensures AnsweredAt(turns, k) {
      PairAt(calls, turns, k / 2);
      if k % 2 == 0 {
        assert k == 2 * (k / 2);
      } else {
        assert k == 2 * (k / 2) + 1;
      }
    }
  }

  /** The turns one chat adds: the user's text, the tool turns, the assistant's answer. */
  function Exchange(input: string, turns: seq<Message>, answer: string): seq<Message> {
    [Message(User, TextBlock(input))] + turns + [Message(Assistant, TextBlock(answer))]
  }

  /** The transcript grown turn by turn is the old one followed by the exchange. */
  lemma ExchangeAppended(m: seq<Message>, input: string, turns: seq<Message>, answer: string)
    ensures m + [Message(User, TextBlock(input))] + turns + [Message(Assistant, TextBlock(answer))]
            == m + Exchange(input, turns, answer)
  {
  }

  /** A chat's turns keep the transcript alternating, every tool use answered, and add
      exactly the one input the chat logs. */
  lemma ExchangeWellFormed(input: string, calls: seq<ModelReply>, turns: seq<Message>, answer: string)
    requires ToolTurns(calls, turns)
    ensures var x := Exchange(input, turns, answer);
            Alternates(x) && ToolsAnswered(x) && UserInputs(x) == [input]
  {
    ToolTurnsWellFormed(calls, turns);
    var u := [Message(User, TextBlock(input))];
    var a := [Message(Assistant, TextBlock(answer))];
    var x := u + turns + a;
    forall k | 0 <= k < |x| ensures RoleAt(x, k) {
      if 0 < k <= |turns| {
        assert x[k] == turns[k - 1];
      }
    }
    ToolsAnsweredAppend(u, turns);
    ToolsAnsweredAppend(u + turns, a);
    NoUserInputs(turns);
    UserInputsAppend(u, turns);
    UserInputsAppend(u + turns, a);
  }

  /** A chat that completes keeps the transcript well formed and in step with the logged inputs. */
  lemma ChatKeepsValid(m: seq<Message>, ctx: seq<ContextEntry>, e: ContextEntry, calls: seq<ModelReply>,
                       turns: seq<Message>, answer: string)
    requires Alternates(m) && ToolsAnswered(m) && UserInputs(m) == Inputs(ctx)
    requires ToolTurns(calls, turns)
    ensures var x := m + Exchange(e.userInput, turns, answer);
            Alternates(x) && ToolsAnswered(x) && UserInputs(x) == Inputs(ctx + [e])
  {
    var x := Exchange(e.userInput, turns, answer);
    ExchangeWellFormed(e.userInput, calls, turns, answer);
    AlternatesAppend(m, x);
    ToolsAnsweredAppend(m, x);
    UserInputsAppend(m, x);
    InputsAppend(ctx, e);
  }

  // ---------------------------------------------------------------------------
  // Products stored by the scrape calls

  predicate IsScrape(c: ModelReply) {
    c.ToolCall? && c.name == ScrapeTool
  }

  /** The products a scrape call's batch yields. */
  function Scraped(c: ModelReply): seq<Option<Product>>
    requires c.ToolCall?
  {
    BatchProducts(BatchEntries(c.data.scrape))
  }

  /** The product store after one call: a scrape stores its batch, any other call nothing. */
  function StoreCall(m: map<string, Product>, c: ModelReply): map<string, Product> {
    if IsScrape(c) then StoreBatch(m, Scraped(c)) else m
  }

  /** What one call appends to `products_viewed`. */
  function ViewedCall(c: ModelReply): seq<Product> {
    if IsScrape(c) then ViewedIn(Scraped(c)) else []
  }

  /** `current_products` after the scrape calls among `calls`, in order. */
  function StoreScrapes(m: map<string, Product>, calls: seq<ModelReply>): map<string, Product>
    decreases |calls|
  {
    if |calls| == 0 then m
    else
      var n := |calls| - 1;
      StoreCall(StoreScrapes(m, calls[..n]), calls[n])
  }

  /** What the scrape calls among `calls` append to `products_viewed`. */
  function ViewedScrapes(calls: seq<ModelReply>): seq<Product>
    decreases |calls|
  {
    if |calls| == 0 then []
    else
      var n := |calls| - 1;
      ViewedScrapes(calls[..n]) + ViewedCall(calls[n])
  }

  lemma ScrapesStep(m: map<string, Product>, calls: seq<ModelReply>, c: ModelReply)
    ensures StoreScrapes(m, calls + [c]) == StoreCall(StoreScrapes(m, calls), c)
    ensures ViewedScrapes(calls + [c]) == ViewedScrapes(calls) + ViewedCall(c)
  {
    assert (calls + [c])[..|calls|] == calls;
  }

  /** A chat that scrapes nothing leaves the product store and the viewed list as they were. */
  lemma {:induction false} NoScrapeNoProducts(m: map<string, Product>, calls: seq<ModelReply>)
    requires forall k :: 0 <= k < |calls| ==> !IsScrape(calls[k])
    ensures StoreScrapes(m, calls) == m && ViewedScrapes(calls) == []
    decreases |calls|
  {
    if |calls| > 0 {
      var n := |calls| - 1;
      assert forall k :: 0 <= k < n ==> calls[..n][k] == calls[k];
      NoScrapeNoProducts(m, calls[..n]);
    }
  }

  // ---------------------------------------------------------------------------
  // Session context of the system prompt

  const BudgetLead := "User budget: $"
  const ViewedLead := "Products discussed: "
  const PurchaseNote := "User showing " + "PURCHASE INTENT - guide to checkout! "
  const CompareNote := "User wants " + "to COMPARE products - show comparison! "

  /** The budget part of the context: none for no budget or a budget of 0. */
  function BudgetNote(budget: Option<nat>): string {
    if budget.Some? && budget.value != 0 then BudgetLead + NatToString(budget.value) + ". " else ""
  }

  function ViewedNote(viewed: nat): string {
    if viewed > 0 then ViewedLead + NatToString(viewed) + " items. " else ""
  }

  function FlagNote(on: bool, note: string): string {
    if on then note else ""
  }

  /** The intent part of the context: the purchase note, then the comparison note. */
  function IntentNotes(intent: Intent.Intent): string {
    FlagNote(intent.purchaseIntent, PurchaseNote) + FlagNote(intent.comparisonRequest, CompareNote)
  }

  /** Everything the context holds after the budget. */
  function OtherNotes(viewed: nat, intent: Intent.Intent): string {
    ViewedNote(viewed) + IntentNotes(intent)
  }

  /** `context_info`: a budget of 0, like no budget, is not mentioned, nor is an empty viewed
      list. */
  function ContextInfo(budget: Option<nat>, viewed: nat, intent: Intent.Intent): (r: string)
    ensures r == "" <==>
      (budget.None? || budget.value == 0) && viewed == 0 && !intent.purchaseIntent && !intent.comparisonRequest
  {
    BudgetNote(budget) + OtherNotes(viewed, intent)
  }

  /** A string whose first or sixth character differs from the budget lead's does not start
      with it. */
  lemma NotLed(s: string, i: nat)
    requires i < |s| && i < |BudgetLead| && s[i] != BudgetLead[i]
    ensures !(|s| >= |BudgetLead| && s[..|BudgetLead|] == BudgetLead)
  {
    if |s| >= |BudgetLead| {
      assert s[..|BudgetLead|][i] == s[i];
    }
  }

  /** None of the notes after the budget opens like the budget's. */
  lemma OtherNotesNotLed(viewed: nat, intent: Intent.Intent)
    ensures var s := OtherNotes(viewed, intent);
            !(|s| >= |BudgetLead| && s[..|BudgetLead|] == BudgetLead)
  {
    var s := OtherNotes(viewed, intent);
    var t := ViewedNote(viewed);
    var f := IntentNotes(intent);
    if t != "" {
      assert t[0] == ViewedLead[0] == 'P';
      assert s[0] == t[0];
      NotLed(s, 0);
    } else if intent.purchaseIntent {
      assert s == f;
      assert f[5] == PurchaseNote[5] == 's';
      NotLed(s, 5);
    } else if intent.comparisonRequest {
      assert s == f == CompareNote;
      assert CompareNote[5] == 'w';
      NotLed(s, 5);
    }
  }

  /** The context opens with the budget exactly when there is a budget other than 0, and then
      it states that budget's figure. */
  lemma BudgetInContext(budget: Option<nat>, viewed: nat, intent: Intent.Intent)
    ensures var c := ContextInfo(budget, viewed, intent);
            (|c| >= |BudgetLead| && c[..|BudgetLead|] == BudgetLead) <==> budget.Some? && budget.value != 0
    ensures budget.Some? && budget.value != 0 ==>
              var c := ContextInfo(budget, viewed, intent);
              var h := BudgetLead + NatToString(budget.value) + ". ";
              |c| >= |h| && c[..|h|] == h
  {
    var c := ContextInfo(budget, viewed, intent);
    if budget.Some? && budget.value != 0 {
      var h := BudgetLead + NatToString(budget.value) + ". ";
      assert c[..|h|] == h;
      assert c[..|BudgetLead|] == h[..|BudgetLead|];
    } else {
      assert c == OtherNotes(viewed, intent);
      OtherNotesNotLed(viewed, intent);
    }
  }

  // ---------------------------------------------------------------------------
  // The agent

  /** `shopping_session`. Nothing in the agent writes `user_preferences`, `comparison_mode` or
      `purchase_intent` after `reset`, so the types of those three are the model's choice. */
  datatype Session = Session(
    productsViewed: seq<Product>,
    userPreferences: map<string, string>,
    budgetRange: Option<nat>,
    comparisonMode: bool,
    purchaseIntent: Option<string>,
    conversationContext: seq<ContextEntry>)

  const EmptySession := Session([], map[], None, false, None, [])

  /** The agent's three fields at one moment. */
  datatype Snapshot = Snapshot(products: map<string, Product>, session: Session, messages: seq<Message>)

  /** What one `chat` call does to the agent: the intent is logged with the utterance and a
      budget it names is kept, every scrape stores its products, the transcript grows by the
      exchange, and `context` is built from the updated budget and the viewed count before the
      tool loop. */
  ghost predicate Chatted(s0: Snapshot, s1: Snapshot, userInput: string, replies: seq<ModelReply>, context: string)
    requires Replies(replies)
  {
    var intent := Intent.DetectIntent(userInput);
    var budget := if intent.budgetMentioned.Some? then intent.budgetMentioned else s0.session.budgetRange;
    var calls := replies[..|replies| - 1];
    && s1.session == s0.session.(budgetRange := budget,
         productsViewed := s0.session.productsViewed + ViewedScrapes(calls),
         conversationContext := s0.session.conversationContext + [ContextEntry(userInput, intent, Timestamp)])
    && context == ContextInfo(budget, |s0.session.productsViewed|, intent)
    && s1.products == StoreScrapes(s0.products, calls)
    && exists turns :: ToolTurns(calls, turns)
         && s1.messages == s0.messages + Exchange(userInput, turns, replies[|replies| - 1].text)
  }

  class ShoppingAgent {
    var currentProducts: map<string, Product>
    var session: Session
    var messages: seq<Message>

    function Snap(): Snapshot
      reads this
    {
      Snapshot(currentProducts, session, messages)
    }

    /** The transcript alternates and answers every tool use, and each user text in it has its
        context entry, in the same order. */
    predicate Valid()
      reads this
    {
      Alternates(messages) && ToolsAnswered(messages) && UserInputs(messages) == Inputs(session.conversationContext)
    }

    constructor()
      ensures currentProducts == map[] && session == EmptySession && messages == Primer()
      ensures Valid()
    {
      currentProducts := map[];
      session := EmptySession;
      messages := Primer();
      new;
      PrimerValid();
    }

    /** `reset`: clears the session and the product store and starts the transcript over. */
    method Reset()
      modifies this
      ensures currentProducts == map[] && session == EmptySession && messages == Primer()
      ensures Valid()
    {
      currentProducts := map[];
      session := EmptySession;
      messages := Primer();
      PrimerValid();
    }

    /** `detect_user_intent`: the intent of the utterance; the first budget pattern that matches
        also sets the session budget, and without one the budget stays as it was. */
    method DetectUserIntent(userInput: string) returns (intent: Intent.Intent)
      modifies this
      ensures intent == Intent.DetectIntent(userInput)
      ensures session == old(session).(budgetRange :=
                if intent.budgetMentioned.Some? then intent.budgetMentioned else old(session.budgetRange))
      ensures unchanged(this`currentProducts, this`messages)
    {
      intent := Intent.Detect(userInput);
      var budget := if intent.budgetMentioned.Some? then intent.budgetMentioned else session.budgetRange;
      session := session.(budgetRange := budget);
    }

    /** `extract_product_info`: element `i` of the batch, when it is a dict, is stored under
        `product_{i+1}` and appended to the viewed list; other keys keep their values. The
        extraction, which has no effects, is read for the whole batch before the loop, and the
        loop builds the new store and viewed list that the two fields then take. */
    method ExtractProductInfo(payload: ScrapePayload)
      modifies this
      ensures currentProducts == StoreBatch(old(currentProducts), BatchProducts(BatchEntries(payload)))
      ensures session == old(session).(productsViewed :=
                old(session.productsViewed) + ViewedIn(BatchProducts(BatchEntries(payload))))
      ensures unchanged(this`messages)
    {
      var products := BatchProducts(BatchEntries(payload));
      var store, viewed := currentProducts, session.productsViewed;
      for i := 0 to |products|
        invariant store == StoreBatch(old(currentProducts), products[..i])
        invariant viewed == old(session.productsViewed) + ViewedIn(products[..i])
      {
        assert products[..i + 1][..i] == products[..i];
        if products[i].Some? {
          var info := products[i].value;
          store := store[ProductKey(i) := info];
          viewed := viewed + [info];
        }
      }
      assert products[..|products|] == products;
      currentProducts := store;
      session := session.(productsViewed := viewed);
    }

    /** One round of the tool loop in `chat`: the assistant's tool use, then the user turn
        carrying the tool's answer; a scrape also stores its products. */
    method ToolStep(reply: ModelReply) returns (use: Message, answer: Message)
      requires reply.ToolCall?
      modifies this
      ensures ToolPair(reply, use, answer)
      ensures messages == old(messages) + [use, answer]
      ensures currentProducts == StoreCall(old(currentProducts), reply)
      ensures session == old(session).(productsViewed := old(session.productsViewed) + ViewedCall(reply))
    {
      use := Message(Assistant, ToolUse(reply.id, reply.name, reply.input));
      messages := messages + [use];
      var content;
      if reply.name == SearchTool {
        var links := ExtractLinks(reply.data.search);
        if |links| > 0 {
          content := LinksJson(links);
        } else {
          content := MessageJson(NoProductsMessage);
        }
      } else if reply.name == ScrapeTool {
        ExtractProductInfo(reply.data.scrape);
        content := Passed(reply.data.json);
      } else {
        content := Passed(reply.data.json);
      }
      answer := Message(User, ToolResult(reply.id, content));
      messages := messages + [answer];
    }

    /** The opening of `chat`: detect the intent, log it with the utterance, send the
        utterance, and build the session context from the updated session. */
    method Open(userInput: string) returns (intent: Intent.Intent, context: string)
      modifies this
      ensures intent == Intent.DetectIntent(userInput)
      ensures var budget := if intent.budgetMentioned.Some? then intent.budgetMentioned else old(session.budgetRange);
              session == old(session).(budgetRange := budget,
                conversationContext := old(session.conversationContext) + [ContextEntry(userInput, intent, Timestamp)])
              && context == ContextInfo(budget, |old(session.productsViewed)|, intent)
      ensures messages == old(messages) + [Message(User, TextBlock(userInput))]
      ensures unchanged(this`currentProducts)
    {
      intent := DetectUserIntent(userInput);
      session := session.(conversationContext := session.conversationContext + [ContextEntry(userInput, intent, Timestamp)]);
      messages := messages + [Message(User, TextBlock(userInput))];
      context := ContextInfo(session.budgetRange, |session.productsViewed|, intent);
    }

    /** The `while response_message.type == "tool_use"` loop of `chat`: one round per tool
        call, until the reply that is the final answer. */
    method RunTools(replies: seq<ModelReply>) returns (i: nat, ghost turns: seq<Message>)
      requires Replies(replies)
      modifies this
      ensures i == |replies| - 1
      ensures ToolTurns(replies[..i], turns)
      ensures messages == old(messages) + turns
      ensures currentProducts == StoreScrapes(old(currentProducts), replies[..i])
      ensures session == old(session).(productsViewed := old(session.productsViewed) + ViewedScrapes(replies[..i]))
    {
      turns := [];
      i := 0;
      var reply := replies[0];
      while reply.ToolCall?
        invariant 0 <= i < |replies| && reply == replies[i]
        invariant ToolTurns(replies[..i], turns)
        invariant messages == old(messages) + turns
        invariant currentProducts == StoreScrapes(old(currentProducts), replies[..i])
        invariant session == old(session).(productsViewed := old(session.productsViewed) + ViewedScrapes(replies[..i]))
        decreases |replies| - i
      {
        var use, answer := ToolStep(reply);
        ToolTurnsStep(replies[..i], turns, reply, use, answer);
        ScrapesStep(old(currentProducts), replies[..i], reply);
        assert replies[..i + 1] == replies[..i] + [reply];
        AppendAssoc(old(messages), turns, [use, answer]);
        AppendAssoc(old(session.productsViewed), ViewedScrapes(replies[..i]), ViewedCall(reply));
        turns := turns + [use, answer];
        i := i + 1;
        reply := replies[i];
      }
    }

    /** The steps of `chat` that change the agent: open the exchange, run the tool loop, and
        close the transcript on the raw final answer, which is returned. */
    method Converse(userInput: string, replies: seq<ModelReply>) returns (finalText: string, context: string)
      requires Valid() && Replies(replies)
      modifies this
      ensures Valid()
      ensures Chatted(old(Snap()), Snap(), userInput, replies, context)
      ensures finalText == replies[|replies| - 1].text
    {
      ghost var m0 := messages;
      var intent, context' := Open(userInput);
      context := context';
      var i, turns := RunTools(replies);
      finalText := replies[i].text;
      messages := messages + [Message(Assistant, TextBlock(finalText))];
      ExchangeAppended(m0, userInput, turns, finalText);
      assert ToolTurns(replies[..i], turns) && messages == m0 + Exchange(userInput, turns, finalText);
      ChatKeepsValid(m0, old(session.conversationContext), ContextEntry(userInput, intent, Timestamp),
                     replies[..i], turns, finalText);
    }

    /** `chat`: logs the utterance and its intent, sends it, runs the tool loop over the model's
        replies and returns the processed final answer, which closes the exchange raw. */
    method Chat(userInput: string, replies: seq<ModelReply>) returns (r: Processed, context: string)
      requires Valid() && Replies(replies)
      modifies this
      ensures Valid()
      ensures Chatted(old(Snap()), Snap(), userInput, replies, context)
      ensures r == ProcessResponse(replies[|replies| - 1].text)
    {
      var finalText;
      finalText, context := Converse(userInput, replies);
      r := ProcessResponse(finalText);
    }
  }

  /** The transcript `reset` leaves is well formed and holds no user input. */
  lemma PrimerValid()
    ensures Alternates(Primer()) && ToolsAnswered(Primer()) && UserInputs(Primer()) == []
  {
    assert Primer()[..1][..0] == [];
  }
}
