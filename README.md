# Conversational shopping agent: a Dafny model

This project models the core of `ConversationalAmazonAgent`, a voice shopping assistant. The
agent keeps three pieces of state:

- a product store (`current_products`);
- a shopping session: viewed products, budget and conversation context;
- the message transcript it sends to the language model.

In one `chat` turn the agent does the following:

- It detects the user's intent: purchase and comparison keywords and a budget figure.
- It logs the utterance and builds a short session context.
- It runs the model's tool calls until a text answer comes. A web search is filtered down to at
  most five Amazon product links. A batch scrape is read into product records and stored.
- It turns the final answer into display data: links, product cards, comparison text and
  purchase data.
- It turns the final answer into a spoken text optimised for voice.

Module layout, one concept per module:

| module | models |
|---|---|
| `Wrappers` | `Option` |
| `Text` | string primitives: `lower`, `strip`, `split`/`join`, `replace`, `in`, digits |
| `Captures` | the `re.search` patterns for budgets, prices and ratings, as leftmost matchers |
| `Intent` | `detect_user_intent` without its session write |
| `Products` | `_extract_enhanced_product_info`, and the per-batch bookkeeping of `extract_product_info` |
| `Links` | `extract_links` |
| `Directives` | the four bracketed directive grammars, and `re.findall` / `re.sub` over them |
| `Voice` | `_optimize_for_voice` |
| `Response` | `process_response_for_enhanced_features` |
| `Agent` | the agent: `reset`, `detect_user_intent`, `extract_product_info`, `chat` |

The agent is the class `Agent.ShoppingAgent`, with the three fields above. Its methods update
those fields in place. The parsing and text processing are pure functions.

The regular expressions are written out as hand-made matchers, which keeps Python's
backtracking explicit. Every field of a directive ends at the first stop character. Where a
`\s*` precedes a class that also accepts whitespace, the `\s*` gives back as many characters
as the class needs:

- In the title pattern and the directive lead fields the class needs one character. The `\s*`
  gives one back when nothing but whitespace stands before the stop character.
- In the feature bullets the class needs ten characters. The `\s*` gives back as many as it
  takes to reach ten (`Products.FeatureAt`).

The language model and the tool client are outside the model. `Chat` takes, as a parameter,
the sequence of replies the model gives in the turn. Each tool call in that sequence carries
the tool client's answer.

Two behaviours of the code are worth knowing:

- For a repeated `COMPARE_PRODUCTS` or `PURCHASE_INTENT` directive, the code reads
  `matches[0]`. The first occurrence wins and later ones are ignored
  (`Response.PurchaseFirstWins`, `Response.CompareFirstWins`).
- The voice optimiser is not idempotent. Removing `http` can create a new `http`:
  `"hthttptp"` becomes `"http"`, which then becomes `""` (`Voice.VoiceNotIdempotent`).

## Model

| member | source | states |
|---|---|---|
| Text.Lower | conversational_agent.py:198 | lower-casing maps each character and keeps the length |
| Text.Strip | conversational_agent.py:394 | the stripped text is no longer than the input and has no surrounding whitespace |
| Text.StripIsSlice | conversational_agent.py:394 | `strip()` returns a slice of the input with only whitespace before and after it and no whitespace at either of its ends |
| Text.SplitJoin | conversational_agent.py:390 | joining `split(c)` with `c` gives back the input |
| Text.SplitFirst | conversational_agent.py:441 | a first piece without the separator splits off on its own |
| Text.SplitOnJoin | conversational_agent.py:441 | splitting a join of separator-free pieces gives back the pieces |
| Text.ReplaceAll | conversational_agent.py:438 | `str.replace` leaves a text without the searched phrase unchanged |
| Text.SplitCount | conversational_agent.py:441 | `split('.')` yields one piece more than there are periods |
| Text.NatToStringRoundTrip | conversational_agent.py:300 | reading back the decimal rendering of a number gives the number |
| Text.NatToStringInjective | conversational_agent.py:120 | distinct numbers render differently |
| Captures.Search | conversational_agent.py:213 | `re.search` finds nothing exactly when no position matches, and a match has its pattern's shape |
| Captures.FirstMatch | conversational_agent.py:212-217 | the result is the match of one of the patterns, and there is none exactly when every pattern fails |
| Intent.AnyKeyword | conversational_agent.py:206-207 | `any(keyword in s …)` holds exactly when some keyword occurs in `s` |
| Intent.Budget | conversational_agent.py:211-217 | the budget is absent exactly when none of the four budget patterns matches |
| Intent.FoundBudgetShape | conversational_agent.py:213-215 | every budget capture is a non-empty run of digits, so `int(...)` cannot fail |
| Intent.FirstBudget | conversational_agent.py:212-217 | the loop with `break` yields the figure of the first matching pattern |
| Intent.Detect | conversational_agent.py:196-219 | the steps of `detect_user_intent` compute the specified intent |
| Intent.DetectIntent | conversational_agent.py:198-217 | purchase and comparison flags hold exactly when one of their keywords occurs in the lower-cased input; a budget is found exactly when a budget pattern matches |
| Intent.DollarBudgetWins | conversational_agent.py:203-217 | a `$N` with no earlier `$` sets the budget to N, whatever other budget phrases follow |
| Intent.DollarSearch | conversational_agent.py:203 | the `\$(\d+)` pattern captures the digits after the first `$` |
| Products.ExtractName | conversational_agent.py:142-146 | without `Amazon.com:` the name is the default; otherwise it is stripped and holds no bar character |
| Products.TitleAt | conversational_agent.py:144 | a title group lies after the marker, within the text, and holds no bar character |
| Products.FirstTitle | conversational_agent.py:144 | `re.search` of the title pattern returns a group that holds no bar character |
| Products.TitleFrom | conversational_agent.py:144 | the search returns the group at the first position where the title pattern matches |
| Products.NameAtFirstMarker | conversational_agent.py:143-146 | at the first `Amazon.com:`, the name is the stripped text up to the next bar character or the end |
| Products.NameAfterMarker | conversational_agent.py:143-146 | a name written after `Amazon.com:` and ended by a bar character is read back exactly |
| Products.ExtractPrice | conversational_agent.py:148-158 | the price is the sentinel exactly when no price pattern matches; otherwise it is `$` and a decimal number |
| Products.FoundPriceShape | conversational_agent.py:149-157 | every price capture is a decimal number |
| Products.PriceLabelNeverDecides | conversational_agent.py:149-158 | whenever `Price: $N` matches, `$N` matches first, so the second price pattern never decides |
| Products.LabelNeedsDollar | conversational_agent.py:150-151 | a `Price: $` match implies a `$N` match |
| Products.PriceFromDollarSign | conversational_agent.py:149-158 | a decimal after the first `$` is the price |
| Products.ExtractRating | conversational_agent.py:160-170 | the rating is the sentinel exactly when no rating pattern matches; otherwise it is a decimal and `/5 stars` |
| Products.FoundRatingShape | conversational_agent.py:161-169 | every rating capture is a decimal, so a found rating never equals the sentinel |
| Products.RatingOutOfFive | conversational_agent.py:161-170 | `X.Y out of 5 stars` after digit-free text yields the rating `X.Y/5 stars` |
| Products.RatingFromFirst | conversational_agent.py:161-170 | a match of the first rating pattern decides the rating |
| Products.FeatureAt | conversational_agent.py:175 | a feature match is 10 to 100 characters holding no bullet and no line break |
| Products.FindFeatures | conversational_agent.py:175 | every `findall` feature has the feature shape |
| Products.FirstFeature | conversational_agent.py:175 | the first bullet followed by at least ten class characters gives the first `findall` match, cut at 100 characters |
| Products.ExtractFeatures | conversational_agent.py:172-176 | at most three features, each of the feature shape, and none unless the content mentions features or specifications |
| Products.FirstKeyFeature | conversational_agent.py:172-176 | on a page that mentions features, that first match is the first key feature |
| Products.PrimeEligible | conversational_agent.py:178-180 | Prime eligibility holds exactly when `prime` occurs along with `eligible` or `free`, case-insensitively |
| Products.ExtractProduct | conversational_agent.py:129-182 | the record keeps the url and the availability, and each other field is its sentinel or has the extracted shape, and Prime eligibility is the case-insensitive `prime` with `eligible` or `free` test |
| Products.ProductKeyInjective | conversational_agent.py:120 | distinct batch positions get distinct `product_{i+1}` keys |
| Products.BatchProducts | conversational_agent.py:109-119 | one product per batch element, present exactly when the element is a dict |
| Products.StoreBatchWrites | conversational_agent.py:119-121 | element `i`'s product is stored under `product_{i+1}` |
| Products.BatchStored | conversational_agent.py:112-121 | every dict element of the batch is stored under its key with its extracted record |
| Products.StoreBatchKeeps | conversational_agent.py:119-121 | a key the batch does not write keeps its presence and its value |
| Products.ViewedInCount | conversational_agent.py:124 | the viewed list grows by exactly the number of dict elements |
| Links.IsProductPage | conversational_agent.py:92 | the filter: `amazon.com` with `/dp/` or `/gp/product/`, and neither `/s?` nor `/b?` (`Links.CandidateOrigin` and `Links.CandidateComplete` tie it to the candidates) |
| Links.CleanUrl | conversational_agent.py:93 | the cleaned url is a prefix of the url with no `?` and no `/ref=` |
| Links.AmazonLinks | conversational_agent.py:90-94 | every collected link is clean |
| Links.CandidateOrigin | conversational_agent.py:90-94 | every candidate comes from a result whose url is an Amazon product page |
| Links.CandidateComplete | conversational_agent.py:90-94 | every product-page result contributes its cleaned url |
| Links.AmazonLinksPrefix | conversational_agent.py:90-94 | links found among earlier results stay found |
| Links.ExtractLinks | conversational_agent.py:85-95 | the result holds as many distinct candidates as exist, capped at five, each a candidate, with no repeats |
| Directives.MatchAt | conversational_agent.py:233-236 | a directive match starts with its literal and captures one group per field |
| Directives.FindAll | conversational_agent.py:241 | every match has one group per field of its grammar |
| Directives.Scan | conversational_agent.py:241-277 | the left-to-right scan of non-overlapping matches shared by `re.findall` and `re.sub` (`Directives.ScanSpells` proves it spells out the text) |
| Directives.ScanSpells | conversational_agent.py:241 | the kept and removed segments of a scan spell out the scanned text |
| Directives.SubAll | conversational_agent.py:277 | `re.sub(pattern, '', s)` only deletes characters: no character occurs in the result more often than in `s` |
| Directives.NoLiteral | conversational_agent.py:241-277 | text without a grammar's literal yields no match and is left unchanged |
| Directives.MatchDirective | conversational_agent.py:233-236 | a directive written with well-formed fields matches exactly over its extent and reads each field back |
| Directives.FirstDirective | conversational_agent.py:241-277 | the first directive after plain text is the first match; at the end of the text it is cut out whole |
| Directives.AfterPlainText | conversational_agent.py:241-277 | a run of directives after plain text yields one match per directive, in order, and `re.sub` leaves the plain text |
| Directives.OtherAbsent | conversational_agent.py:232-237 | a run of one grammar's directives holds no other grammar's literal |
| Response.Optional | conversational_agent.py:256-258 | `x.strip() if x else ''` is the stripped field |
| Response.LinksOf | conversational_agent.py:243-247 | one stripped link per `DISPLAY_LINK` match |
| Response.CardsOf | conversational_agent.py:249-261 | one stripped card per `PRODUCT_CARD` match |
| Response.CutDirectives | conversational_agent.py:275-277 | the four substitutions leave a text without `[` unchanged |
| Response.ProcessResponse | conversational_agent.py:221-281 | as many links and cards as there are matches, all stripped; comparison and purchase data present exactly when their grammar matches; the spoken text is stripped, one line, with at most three periods |
| Response.NoDirectives | conversational_agent.py:221-281 | a reply without `[` has no display data and is only voice-optimised |
| Response.LinksAlone | conversational_agent.py:232-241 | link directives after plain text match no other grammar |
| Response.LinksReadBack | conversational_agent.py:232-279 | link directives after plain text become their links, in order, and only the plain text is spoken |
| Response.CardsAlone | conversational_agent.py:232-241 | card directives after plain text match no other grammar |
| Response.CardsReadBack | conversational_agent.py:232-279 | card directives after plain text become their cards, in order, and only the plain text is spoken |
| Response.PurchaseFirstWins | conversational_agent.py:268-273 | the first purchase directive gives the purchase data, whatever follows |
| Response.CompareFirstWins | conversational_agent.py:263-266 | the first comparison directive gives the comparison text, short only of its leading whitespace |
| Response.PurchaseNotSpoken | conversational_agent.py:275-279 | a closing purchase directive is cut from the spoken text |
| Response.PlainTextKept | conversational_agent.py:275-277 | text without `[` passes the four substitutions unchanged |
| Voice.KeepLines | conversational_agent.py:393-401 | kept lines are non-empty, stripped and no list items |
| Voice.KeptLineOrigin | conversational_agent.py:393-401 | every kept line is a stripped input line |
| Voice.SpokenLineKept | conversational_agent.py:393-401 | every spoken input line is kept |
| Voice.JoinLines | conversational_agent.py:390-403 | the joined text holds no line break |
| Voice.RemoveResiduals | conversational_agent.py:405-414 | the text after the residual pass is stripped and gains no new characters |
| Voice.ResidualsAbsent | conversational_agent.py:405-414 | stripped text without `[` passes the residual pass unchanged |
| Voice.ApplyReplacements | conversational_agent.py:437-438 | the substitutions add no character absent from the text and the casual phrases |
| Voice.ApplyConcat | conversational_agent.py:437-438 | applying two tables in turn equals applying their concatenation |
| Voice.ApplyFirst | conversational_agent.py:437-438 | the table is applied first entry first |
| Voice.ApplyNoop | conversational_agent.py:437-438 | a table none of whose phrases can occur leaves the text unchanged |
| Voice.CasualOneLine | conversational_agent.py:417-435 | no casual phrase holds a line break |
| Voice.Truncate | conversational_agent.py:440-443 | up to three periods leave the text as is; more leave exactly three, ending the text |
| Voice.TruncateKeepsThree | conversational_agent.py:440-443 | a text of more than four sentences keeps its first three, joined by `. ` and closed by a period |
| Voice.OptimizeForVoice | conversational_agent.py:388-445 | the result is stripped, on one line, and has at most three periods |
| Voice.HtpReplacements | conversational_agent.py:417-438 | on text of only `h`, `t` and `p`, the table reduces to removing `http` |
| Voice.HtpOnly | conversational_agent.py:388-445 | on such text the optimiser only removes `http` |
| Voice.VoiceNotIdempotent | conversational_agent.py:388-445 | optimising `"hthttptp"` gives `"http"`, and optimising that gives `""` |
| Agent.ShoppingAgent.constructor | conversational_agent.py:19-28 | a new agent starts from the reset state |
| Agent.ShoppingAgent.Reset | conversational_agent.py:30-83 | the store and session are emptied and the transcript is the opening pair |
| Agent.PrimerValid | conversational_agent.py:41-83 | the opening pair alternates user and assistant and holds no user input |
| Agent.ShoppingAgent.DetectUserIntent | conversational_agent.py:196-219 | returns the detected intent; a budget found replaces the session's, and nothing else changes |
| Agent.ShoppingAgent.ExtractProductInfo | conversational_agent.py:106-127 | the store takes each dict element's product under its key, and the viewed list grows by those products in order |
| Agent.ContextInfo | conversational_agent.py:298-306 | the context is empty exactly when there is no non-zero budget, nothing viewed and neither flag |
| Agent.BudgetInContext | conversational_agent.py:299-300 | the context opens with the budget note exactly when the budget is non-zero, and then names that figure |
| Agent.ShoppingAgent.Open | conversational_agent.py:286-306 | the intent is logged with the utterance, the utterance is sent, and the context reflects the updated budget |
| Agent.SearchAnswer | conversational_agent.py:344-351 | a search answer is the no-products message exactly when there is no candidate; otherwise it lists one to five candidates |
| Agent.Answers | conversational_agent.py:344-358 | the answer to a call: a search gives its filtered links, or the no-products message when none survive; any other result is passed on (`Agent.SearchAnswer` bounds the links) |
| Agent.ShoppingAgent.ToolStep | conversational_agent.py:334-361 | one tool round appends the tool use and its answer; only a scrape stores products |
| Agent.ToolTurnsStep | conversational_agent.py:337-361 | each round extends the paired tool turns |
| Agent.PairAt | conversational_agent.py:337-361 | round `j` is an assistant tool use answered by the user turn carrying its id |
| Agent.ToolTurnsWellFormed | conversational_agent.py:337-361 | the tool rounds alternate and every use is answered next |
| Agent.ScrapesStep | conversational_agent.py:352-353 | the store and viewed list after one more call are those of the scrapes so far, updated by that call |
| Agent.NoScrapeNoProducts | conversational_agent.py:344-356 | a turn without scrapes leaves the store and the viewed list as they were |
| Agent.ShoppingAgent.RunTools | conversational_agent.py:332-378 | the loop ends at the final answer after one paired round per tool call, storing every scrape |
| Agent.ExchangeWellFormed | conversational_agent.py:295-385 | one turn's exchange alternates, answers every tool use and adds exactly the utterance as user input |
| Agent.ChatKeepsValid | conversational_agent.py:289-385 | a chat turn that completes keeps the transcript well formed and its user inputs in step with the context log |
| Agent.ShoppingAgent.Converse | conversational_agent.py:283-385 | the whole state change of a turn, keeping the transcript invariant; the raw answer is returned |
| Agent.ShoppingAgent.Chat | conversational_agent.py:283-386 | a turn's state change, returning the processed final answer |

## Left out

- The language model and the tool client are not modelled. The `replies` parameter stands for
  their answers. `Agent.Replies` requires it to be tool calls followed by one answer. A model
  that calls tools forever is therefore not modelled.
- The two system prompts, `model`, `max_tokens` and the tool definitions are not modelled. The
  session context they embed is returned as `context`.
- The wording of the opening instructions is left out. That turn is `Brief`.
- `json.dumps` is left out. A tool result turn holds the value that would be serialised.
- The exception fallbacks of `extract_product_info` and `_extract_enhanced_product_info` are
  left out, and so is `print`. The model's extraction cannot fail.
- An exception that escapes `chat` is not modelled. `chat` has no `try`, so such an exception
  leaves the transcript half-written. A failing client call leaves a trailing user turn. A
  raising `handle_tool_call` or `extract_links` leaves an assistant tool use with no tool
  result.
- Agent.ChatKeepsValid: like the `Valid` invariant of `Agent.ShoppingAgent`, it describes only
  turns that complete. A turn cut short by an exception breaks `Alternates` and
  `ToolsAnswered`.
- Links.SearchPayload holds only well-typed search results. An ill-typed payload (`data` or
  `web` not a dict, a result not a dict, a `url` not a string) makes `extract_links` raise,
  and that case is not modelled.
- `lower()`, `re.IGNORECASE` and `\d` are modelled for ASCII letters and digits only.
  Whitespace is the Latin-1 `isspace` set.
- `main.py` is not part of this model.
- `user_preferences`, `comparison_mode` and `purchase_intent` are never written after `reset`,
  so their types are the model's choice.
- The timestamp is the constant `"now"`, as in the code.
- Links.ExtractLinks: the order of `list(set(...))` is unspecified in Python. The method
  promises only which links and how many, not their order.
- Agent.ShoppingAgent.ExtractProductInfo: the extraction is computed for the whole batch
  before the loop. The loop builds the new store and viewed list, and the fields are then
  assigned once. The result matches the code's entry-by-entry updates.
- Intent.Detect: the budget loop of `detect_user_intent` lives in `Intent.FirstBudget`. The
  session write is in `Agent.ShoppingAgent.DetectUserIntent`.
- Products.ExtractFeatures: states the number, shape and gate of the features.
  `Products.FirstKeyFeature` gives the first one. The model does not state that the second
  and third are the next `findall` matches.
- Voice.OptimizeForVoice: states the shape of the result, not its exact text. The exact text is
  proved only for the `h`/`t`/`p` family (`Voice.HtpOnly`).
- Response.ProcessResponse: the exact read-back is proved for replies made of plain text
  followed by directives of one kind, and for a first purchase or comparison directive. Replies
  mixing several kinds are characterised only by the counts and shapes in its contract.
