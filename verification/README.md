# B.U.D.U: a verified model

B.U.D.U is an inline web application firewall. A request passes an allowlist, a stack of early
stages, a body gate and a stack of late stages (rules, signatures), is forwarded, and its reply
passes response rules. A supervisor swaps signatures, rules and block lists under running traffic.
This project models that behaviour in Dafny and proves what it is meant to guarantee.

`dafny verify dfyconfig.toml` checks everything. The modules:

- `Text`, `Common`: sequences and text as the program uses them; requests, replies, decisions.
- `Parser`, `Signatures`: percent-decoding, the per-request cache, the haystack, the two-tier scan.
- `Rules`, `Engine`, `Isolation`, `Reloads`, `Threshold`: the rule compiler, the stateful evaluator, and
  its behaviour over whole runs of many clients; `RuleMeaning`, `DefinitionMeaning`: what rules and
  their definitions mean, told without the evaluator and the compiler.
- `Forms`, `Json`, `Multipart`, `Parameters`, `Clock`: argument extraction and the local clock.
- `Tokenizer`, `SecRuleText`, `SecRuleFile`, `ActionMeaning`, `ModSec`, `GroupReading`: the SecRule importer,
  from text to emitted rules; `ImportMeaning`, `ImportReading`, `ImportLoads`, `ImportLosses`: what those
  rules mean to the engine, when it loads them, and what is lost on the way.
- `Counters`, `CounterRaces`, `RacingRequests`: sliding-window counters, sequentially and under races.
- `Reputation`, `Bans`: timed lists, and the file that `ban` and `unban` edit.
- `Pipeline`, `StandardPipeline`: the fold over stages that may panic, and the standard stack.
- `Metrics`, `Protocol`, `Proxy`, `ForwardHeaders`: the request protocol as a state machine over all
  interleavings, and the sequential handler proved to follow it.
- `Supervisor`: hot reload.

## How to read the model

- Text is a sequence of characters below 256, one per UTF-8 byte; whitespace is ASCII whitespace and
  a lossy UTF-8 conversion is the identity. Addresses and networks are their canonical text.
- Regex, Aho-Corasick, CIDR, geo, limiter and TOML/JSON readers are function values of which only the
  stated contract is used: a literal search finds the position of some pattern that occurs, and a
  limiter answers from the times at which that client asked that limiter.
- Time is an input. One evaluation happens at one moment; wall-clock time in list runs does not go
  back. The counter cache is below its capacity, except in `CounterRaces`, where entries may be
  evicted at any time.
- Integers are unbounded unless a width is written out: saturating u32 scores and u64 counters, the
  i64 parse of a compared counter, the wrapping i16 of a time-zone offset, the wrapping byte of an
  id suffix and the wrapping u64 log tally are.
- A request that is dropped at an await point, or whose response rules panic, is one that takes no
  further step in `Protocol`.

## Where the code and its comments differ

The model follows the code.

- crates/budu-rules/src/modsec.rs:11-15 and 29-31 say unsupported constructs are skipped and reported, or
  warned about. Lost in silence are:
  a chain member that does not parse, with the chain cut before it (`ModSec.BrokenMemberTruncates`;
  exactly when: `ModSec.BrokenAccounted`);
  a variable that is excluded or not supported, a regex selector among them, beside one that is
  (`ImportLosses.RegexSelectorLost`; exactly when: `ImportLosses.ReportLosesNothing`);
  a transform that is not supported (`ImportLosses.EntityDecodeLost`; exactly when:
  `ImportLosses.TransformsKeptExactly`);
  the phase, verdict and score of every chain member after the first (`ImportLosses.LaterActionsUnread`);
  a directive other than SecRule, SecRuleScript among them (`SecRuleFile.ScriptPassedOver`; what has an
  entry: `ModSec.EntriesAccounted`).
- crates/budu-pipeline/src/lib.rs:166-168 says a context is never used after a panic; under fail-open
  it is, as the panicking stage left it (`Pipeline.LeftoverDecides`; exactly when: `Pipeline.LeftoverExactly`).
- crates/budu-pipeline/src/lib.rs:44-47 says a reload drops no rate-limit state; that holds of the global
  limiter (`Supervisor.CountersSurvive`), not of the limiters of `rate_limit` rules
  (`Reloads.ReloadForgetsChecks`; rules without one do not tell: `Reloads.ReloadInvisible`).
- crates/budu-ratelimit/src/lib.rs:166 rests key injectivity on names being free of U+0001; it holds
  without that, because an address never contains it (`Counters.KeyInjective`).
- crates/budu-rules/src/ruleset.rs:1022-1024 reads hours and minutes as signed numbers bounded only
  from above (`Clock.TzSecondSign`, `Clock.TzWraps`; exactly when it matters: `Clock.TzExact`, `Clock.TzWithinBound`).
- A counter above 2^63-1 does not compare at all, so `counter > N` stops matching there
  (`Threshold.TopCountEscapes`; exactly when: `Threshold.ExactThreshold`).
- crates/budu-proxy/src/lib.rs:161-162 bumps `whitelisted` before `allowed`, so a reader can see the
  first ahead of the second (`Protocol.WhitelistedLeads`; exactly when: `Protocol.WhitelistedAgainstAllowed`).
- crates/budu-proxy/src/lib.rs:521-522 promises to strip any header named in `Connection`; only the first
  value is read (`ForwardHeaders.SecondConnectionIgnored`; exactly when the promise is kept:
  `ForwardHeaders.NamedDroppedExactly`).
- The 500 block that stands for a panic can also be the answer of a rule written that way
  (`StandardPipeline.RuleCanLookLikeAPanic`; exactly when: `Pipeline.ClosedFailsOnPanic`).
- The importer counts a rule as converted even if the engine then refuses it
  (`ImportLoads.IpMatchOnArgs`; exactly when: `ImportLoads.ImportLoadsExactly`).
- Flattened JSON paths can collide or mislead (`Json.DottedKeyCollides`; exactly when: `Json.FlattenExact`).

## Model

| member | source | states |
|---|---|---|
| `Parser.DecodeFoldInto` | crates/budu-parser/src/lib.rs:53-85 | the index-driven loop appends exactly the decoding of its input to what was there, for both flags |
| `Parser.ByteEscaped` | crates/budu-parser/src/lib.rs:53-94 | every byte, escaped with its high digit first and either letter case of each digit, decodes to itself: folded if asked, `?` outside ASCII |
| `Parser.ByteKept` | crates/budu-parser/src/lib.rs:53-94 | any other byte stands for itself, `+` for a space where asked, and a percent sign too when two hex digits do not follow it |
| `Parser.DecodeRender` | crates/budu-parser/src/lib.rs:53-94 | decoding undoes every way of writing a text: literal characters, `%XX` in either hex case, `+` for space; a byte outside ASCII comes out as `?` |
| `Parser.EncodingInvariance` | crates/budu-parser/src/lib.rs:37-45 | all ways of writing texts that agree up to letter case normalise to the same lower-case text |
| `Signatures.Compile` | crates/budu-signatures/src/db.rs:66-118 | succeeds exactly when the list is not empty, every signature is well formed and both matchers build on its patterns; the two tiers then hold the literal and the regex signatures in source order, each beside its own metadata; otherwise the first malformed signature, the empty list, the automaton or the regex set decides the error |
| `Signatures.TiersPartition` | crates/budu-signatures/src/db.rs:75-100 | a signature is in exactly the tier its fields ask for |
| `Signatures.ScanComplete` | crates/budu-signatures/src/db.rs:153-163 | a signature that matches, literal or regex, always gives a hit |
| `Signatures.ScanSound` | crates/budu-signatures/src/db.rs:153-163 | every hit carries the metadata of a signature of the source list that matches; a regex is reported only if no literal occurs, and it is the first regex that matches |
| `Signatures.NormalizeInspect` | crates/budu-parser/src/lib.rs:20-34 | fills both cache slots with the normalised path and query, changes nothing else and never stops the request |
| `Signatures.CacheInvisible` | crates/budu-signatures/src/stage.rs:41-69 | the haystack is the same whether the normaliser ran, was skipped or filled only part of the cache |
| `Signatures.Haystack` | crates/budu-signatures/src/stage.rs:46-69 | builds, step by step, the path, `?` and query, newline and body, from the cache where filled and from the request elsewhere |
| `Signatures.HaystackMeans` | crates/budu-signatures/src/stage.rs:46-69 | however path, query and body are written, the text scanned is the folded meaning of the path, then `?` and that of the query, then a line feed and that of a buffered body |
| `Signatures.Inspect` | crates/budu-signatures/src/stage.rs:77-88 | continues exactly if no signature of the source list matches the haystack; otherwise stops with a block that carries the id, the status and the reason (the id, if it has none) of some signature that does |
| `Signatures.EvasionProof` | crates/budu-signatures/src/stage.rs:46-88 | end to end: however a text containing a literal signature is written, in path, query or body, and whatever the coherent cache holds, the stage stops with the block of a signature of the list that matches |
| `Signatures.NoBridging` | crates/budu-signatures/src/stage.rs:46-69 | a literal free of `?` and newline occurs in the haystack only if it occurs inside path, query or body alone |
| `Rules.CompileWithTz` | crates/budu-rules/src/ruleset.rs:306-432 | the compiler's loop gives both phase lists, or the first complaint in file order |
| `Rules.CompiledIsWellPhased` | crates/budu-rules/src/ruleset.rs:306-432 | an accepted set has a condition on every rule, no response field in a request rule, and only response fields and block, log or incr in a response rule, so the fall-through arms are never reached |
| `Rules.PhaseKeepsOrder` | crates/budu-rules/src/ruleset.rs:306-432 | each definition becomes the rule at the position its phase's earlier definitions determine: each phase keeps file order |
| `Engine.RulesStage.CheckLimit` | crates/budu-ratelimit/src/lib.rs:48-60 | a limiter is asked once, for this client's bucket of this rule only |
| `Engine.RulesStage.EvaluateInner` | crates/budu-rules/src/ruleset.rs:482-545 | the one-pass evaluator with its saturating u32 score returns the verdict and leaves the state that the rows of `RuleMeaning` tell from the rules alone |
| `Engine.RulesStage.EvaluateResponseRules` | crates/budu-rules/src/ruleset.rs:549-584 | the same for response rules |
| `Engine.ContainsOperator` | crates/budu-rules/src/ruleset.rs:871-876 | the `contains` operator holds exactly when its text occurs in the value |
| `Engine.EvaluateCharacterised` | crates/budu-rules/src/ruleset.rs:482-545 | the verdict is that of the first rule that holds and decides in the counter state left by earlier matching rules; with none, it blocks exactly when 0 < threshold <= the true, uncapped sum of matched scores |
| `RuleMeaning.AppliedInOrder` | crates/budu-rules/src/ruleset.rs:790-804 | the transforms are applied in order, each to what the earlier ones give |
| `RuleMeaning.RuleMeans` | crates/budu-rules/src/ruleset.rs:806-842 | a rule matches exactly when each condition means it to: some value its field offers satisfies the operator after the transforms, or none does if negated |
| `RuleMeaning.OneRuleDecides` | crates/budu-rules/src/ruleset.rs:482-545 | a file of one rule on every request: its action's verdict and effect if it matches by what its conditions mean, and otherwise no verdict and no change |
| `RuleMeaning.OneResponseRuleDecides` | crates/budu-rules/src/ruleset.rs:549-584 | a file of one response rule: only a block decides, and only blocks, logs and counts have an effect |
| `RuleMeaning.FileDecides` | crates/budu-rules/src/ruleset.rs:482-545 | a whole file on every request: the first rule that matches and decides, each seeing what matching rules before it left; with none, blocked exactly when scoring is on and the points of the matching score rules reach the threshold |
| `RuleMeaning.ResponseFileDecides` | crates/budu-rules/src/ruleset.rs:549-584 | the same for a response, with no score |
| `RuleMeaning.ArgsBlock` | crates/budu-rules/src/ruleset.rs:829-843 | a block rule on `args contains t`, with any transforms, blocks exactly when some parameter's value holds `t` after them; negated, exactly when none does |
| `RuleMeaning.HeadersBlock` | crates/budu-rules/src/ruleset.rs:829-843 | the same for the values of all headers that are text |
| `RuleMeaning.CookiesBlock` | crates/budu-rules/src/ruleset.rs:829-843 | the same for the values of all cookies |
| `DefinitionMeaning.ConditionKept` | crates/budu-rules/src/ruleset.rs:587-771 | a compiled condition means what its definition states: field, operator, value, negation, transforms and time zone |
| `DefinitionMeaning.DefinitionDecides` | crates/budu-rules/src/ruleset.rs:306-432 | a file of one definition, compiled and run on any request: its action is taken, under its own id, status and message, exactly when its conditions state it |
| `DefinitionMeaning.FileKept` | crates/budu-rules/src/ruleset.rs:306-432 | every rule of a compiled file carries its own definition's id and action, and conditions that mean what the definition states, on every subject and counter state |
| `Engine.LaterRulesIrrelevant` | crates/budu-rules/src/ruleset.rs:482-545 | rules after the deciding one affect neither verdict nor state: any other continuation of the file gives the same |
| `Engine.ResponseBodyInvisible` | crates/budu-rules/src/ruleset.rs:549-584 | if no response rule asks for the body, verdict, log tally, limiter and counter state are equal for any two bodies |
| `Isolation.ClientIsolation` | crates/budu-rules/src/ruleset.rs:482-584 | in any interleaved timed run with reloads, from any state, one client sees exactly the verdicts it would see if only its own requests had been made |
| `Isolation.ForeignEffect` | crates/budu-ratelimit/src/lib.rs:165-190 | a rule applied to one client leaves every counter and bucket of another client untouched |
| `Counters.KeyInjective` | crates/budu-ratelimit/src/lib.rs:165-168 | two (name, address) pairs share a cache key only if they are equal, whatever characters the name holds |
| `Counters.CounterStore.Incr` | crates/budu-ratelimit/src/lib.rs:173-185 | adds with saturation to the unexpired value, refreshes the window, touches no other key and returns the value now stored |
| `Counters.ReadBack` | crates/budu-ratelimit/src/lib.rs:165-190 | reading after an increment: the same client and name read the new saturated total until the window has passed and 0 from then on, every other client or name reads as before |
| `CounterRaces.NeverOverCounts` | crates/budu-ratelimit/src/lib.rs:121-190 | in every interleaving of read and insert steps of any threads, with expiry and eviction, the stored value never exceeds the saturating sum of the amounts inserted for that key |
| `CounterRaces.OrderlyIsExact` | crates/budu-ratelimit/src/lib.rs:173-185 | it equals that sum if increments of the key do not overlap and its entry neither lapses nor is evicted |
| `CounterRaces.OverlapLosesOne` | crates/budu-ratelimit/src/lib.rs:170-185 | two overlapping increments of 1 leave 1 |
| `Threshold.OneRequest` | crates/budu-rules/src/ruleset.rs:524-531 | a request that the rules count, with no other rule having a say, is blocked exactly when the count it makes is over the limit and still parses as i64, and that count is stored with a fresh window |
| `Threshold.LeftAlone` | crates/budu-rules/src/ruleset.rs:482-584 | a request or reply that no rule on the counter matches leaves the client's entry as it is, whatever else is decided on it |
| `Threshold.EntryAt` | crates/budu-rules/src/ruleset.rs:524-531 | before every event of a run the client's entry holds the streak of its last counted request, times the amount and capped at 2^64-1, or nothing if none was counted |
| `Threshold.ExactThreshold` | crates/budu-rules/src/ruleset.rs:871-883 | in any interleaving with other clients, with the client's own replies and uncounted requests and with reloads of any rules, a counted request is blocked if and only if its streak times the amount exceeds the limit and is at most 2^63-1; a gap of at least the window starts a new streak |
| `Threshold.SteadyThreshold` | crates/budu-rules/src/ruleset.rs:871-883 | in the same runs, counting by one with no gap as long as the window, the n-th counted request is blocked exactly when n exceeds the limit |
| `RacingRequests.NeverBlocksEarly` | crates/budu-ratelimit/src/lib.rs:170-190 | in every interleaving of the reads, inserts and comparisons of any concurrent requests, with expiry and eviction, `counter > N` blocks a request only if its client has by then inserted, and so asked for, more than N |
| `RacingRequests.AloneIsExact` | crates/budu-ratelimit/src/lib.rs:170-190 | a request whose four steps nothing interrupts is blocked if and only if what it read plus its own amount, capped at 2^64-1, is over the limit and at most 2^63-1 |
| `Threshold.TopCountEscapes` | crates/budu-rules/src/ruleset.rs:880-883 | a first request that counts 2^63 is not blocked by `counter > 0`, although one that counts 1 is |
| `Forms.ParsePairs` | crates/budu-rules/src/ruleset.rs:1278-1290 | the loop appends the decoded pairs of its input, in order |
| `Forms.FormRead` | crates/budu-rules/src/ruleset.rs:1278-1290 | whatever mix of escapes the pairs are written in, parsing returns what they mean, in order, the empty list included |
| `Forms.PairsAppend` | crates/budu-rules/src/ruleset.rs:1278-1290 | two query strings joined by an ampersand spell the parameters of the one, then those of the other; an empty one spells none |
| `Forms.BareKeyRead` | crates/budu-rules/src/ruleset.rs:1278-1290 | a key without `=` is a parameter with an empty value |
| `Forms.FormRoundTrip` | crates/budu-rules/src/ruleset.rs:1278-1290 | form-encoding any list of byte-string pairs and parsing it returns the list, with each byte outside ASCII read as `?` |
| `Forms.FormRoundTripExact` | crates/budu-rules/src/ruleset.rs:1278-1290 | the round trip is exact if and only if every byte is ASCII |
| `Json.FlattenJson` | crates/budu-rules/src/ruleset.rs:1148-1173 | the two recursive loops append exactly the flattened pairs |
| `Json.ContainersRead` | crates/budu-rules/src/ruleset.rs:1148-1173 | an empty container gives no parameter, and one more member or item adds its own, under its key or its position below the container's path |
| `Json.FlattenFaithful` | crates/budu-rules/src/ruleset.rs:1148-1173 | for keys that are non-empty, dot-free and unique per object: one pair per scalar, all paths different, each path leads from the root to its value, and every scalar is emitted |
| `Json.FlattenExact` | crates/budu-rules/src/ruleset.rs:1148-1173 | for every tree with unique keys: one pair per scalar and none missed; all paths are different and lead to their values if and only if no step to a scalar holds a dot and none of the ways begins with an empty key |
| `Json.DottedKeyCollides` | crates/budu-rules/src/ruleset.rs:1148-1173 | without the condition on keys two scalars can share a path |
| `Multipart.FindFromFirst` | crates/budu-rules/src/ruleset.rs:1271-1276 | a position found is the first occurrence; nothing found means there is none |
| `Multipart.SplitOn` | crates/budu-rules/src/ruleset.rs:1250-1268 | the one-cursor loop returns the leftmost-first segments, and the whole text for an empty separator |
| `Multipart.SegmentsRejoin` | crates/budu-rules/src/ruleset.rs:1250-1268 | no segment contains the separator, and the segments rejoin to the input |
| `Multipart.ParseMultipartArgs` | crates/budu-rules/src/ruleset.rs:1179-1209 | the loop over segments appends one pair per readable part |
| `Multipart.MultipartRoundTrip` | crates/budu-rules/src/ruleset.rs:1179-1276 | printing any list of field and file parts (with any further header lines) with a boundary that occurs in no part and parsing it returns the names with values or file names, in order |
| `Parameters.FormParameters` | crates/budu-rules/src/ruleset.rs:1115-1140 | a form body's parameters follow the query's, whatever the letter case of its content type |
| `Parameters.JsonParameters` | crates/budu-rules/src/ruleset.rs:1115-1146 | a JSON body's flattened values follow the query's parameters, by any of the three spellings of its content type; one that does not parse gives nothing |
| `Parameters.MultipartParameters` | crates/budu-rules/src/ruleset.rs:1115-1140 | a multipart body's printed parts follow the query's parameters, unless the boundary ends in `+json`: such a body is taken for JSON |
| `Parameters.OtherParameters` | crates/budu-rules/src/ruleset.rs:1115-1140 | a body that is not buffered, has no content type or one of no known kind gives nothing |
| `Parameters.CookiesRead` | crates/budu-rules/src/ruleset.rs:1293-1312 | a cookie header that is written out reads back, in order |
| `Clock.OneClock` | crates/budu-rules/src/ruleset.rs:914-981 | the weekday advances, by one, exactly when the local minute that the time window sees wraps to 0, for every epoch minute and offset |
| `Clock.SameMoment` | crates/budu-rules/src/ruleset.rs:905-970 | the epoch minutes of the day operator and the UTC minutes of the time operator name the same minute of the day |
| `Clock.WindowSize` | crates/budu-rules/src/ruleset.rs:974-981 | over a day a window admits exactly ((end - start) mod 1440) + 1 minutes, in every time zone |
| `Clock.ParsedWindowSize` | crates/budu-rules/src/ruleset.rs:985-998 | the same for every window text that parses |
| `Clock.WindowMeans` | crates/budu-rules/src/ruleset.rs:974-981 | a minute is admitted exactly if it lies, on the local clock, at most the window's length ahead of its start, past midnight if need be |
| `Clock.WindowRead` | crates/budu-rules/src/ruleset.rs:985-998 | a written window, with colons or full stops, is read as its start and its end if both are times of day, and refused otherwise |
| `Clock.WeekdayOf` | crates/budu-rules/src/ruleset.rs:914-919 | every minute of day n of the local clock is n days after a Thursday |
| `Clock.AddRange` | crates/budu-rules/src/ruleset.rs:933-940 | the day-range loop ends, having added exactly the cyclic interval |
| `Clock.CyclicMeans` | crates/budu-rules/src/ruleset.rs:933-940 | the interval is exactly the days from the first on to the last, past Saturday if need be |
| `Clock.ParseDayMask` | crates/budu-rules/src/ruleset.rs:922-945 | the token loop gives the days named by the tokens, and nothing if a token is malformed or no day is named |
| `Clock.DayListRead` | crates/budu-rules/src/ruleset.rs:922-960 | a list of days and ranges that is written out reads back as exactly the days it stands for, ranges going forward round the week |
| `Clock.TzRead` | crates/budu-rules/src/ruleset.rs:1001-1025 | `+HH:MM` and `-HH:MM`, with any zero padding, are read as the minutes they state |
| `Clock.TzSecondSign` | crates/budu-rules/src/ruleset.rs:1022-1025 | a second sign on the hours is accepted, turns the offset round (`+-5:00` is -300) and escapes the bound of 14 hours (`+-20:00` is -1200) |
| `Clock.TzWraps` | crates/budu-rules/src/ruleset.rs:1022-1025 | `+-600:00` wraps round to +29536 minutes |
| `Clock.TzWithinBound` | crates/budu-rules/src/ruleset.rs:1022-1025 | for every accepted hours and minutes the offset stays within 14:59 either way exactly when the stated minutes do, or lie below by a multiple of 2^16 |
| `Clock.TzExact` | crates/budu-rules/src/ruleset.rs:1022-1025 | whatever signs were read, the offset is the stated one exactly when that fits 16 bits |
| `ModSec.MapMembers` | crates/budu-rules/src/modsec.rs:280-288 | all members are mapped before anything is emitted; the first complaint wins, and operators that need a feature are warned about up to there |
| `ModSec.BuildRules` | crates/budu-rules/src/modsec.rs:254-332 | one rule per variable for a single member, one conjunction for a chain of single-condition members, an error otherwise, with the warnings due |
| `ModSec.GatherChain` | crates/budu-rules/src/modsec.rs:105-128 | gathers members while the last one asks for a chain, stopping at the first line that is not a rule |
| `ModSec.Convert` | crates/budu-rules/src/modsec.rs:86-144 | over the logical lines told apart, the cursor loop reports exactly the groups of the file: their rules, the number converted, a note for each group skipped, the warnings |
| `SecRuleText.JoinContinuations` | crates/budu-rules/src/modsec.rs:531-548 | the loop gives the logical lines of the text |
| `SecRuleText.ContinuedLine` | crates/budu-rules/src/modsec.rs:531-548 | a line continued any number of times reads as its parts with spaces between them, and the next line starts afresh |
| `SecRuleText.VarsRead` | crates/budu-rules/src/modsec.rs:612-638 | a list of variables with marks and selectors that is written out reads back, in order |
| `SecRuleText.OperatorRead` | crates/budu-rules/src/modsec.rs:642-657 | an operator reads back: name, argument and negation |
| `ImportReading.PhrasesRead` | crates/budu-rules/src/modsec.rs:456-474 | a phrase list becomes the choice among its words, each one escaped so that it stands for itself |
| `SecRuleText.SplitActions` | crates/budu-rules/src/modsec.rs:661-677 | the character loop gives the actions between commas outside single quotes |
| `SecRuleText.ActionsRead` | crates/budu-rules/src/modsec.rs:661-691 | a list of actions that is written out reads back, in order; commas and colons inside quoted values do not split |
| `SecRuleFile.ParseSecRule` | crates/budu-rules/src/modsec.rs:185-250 | the tokens, variables, operator and actions of the text make the rule, and fewer than two tokens make none |
| `ActionMeaning.ActionsMean` | crates/budu-rules/src/modsec.rs:185-250 | a rule is what its text says: variables and operator, the flags its actions mention, id, message, status, phase and score as the last action states each, and the transforms after the last `t:none` |
| `ActionMeaning.MacroScore` | crates/budu-rules/src/modsec.rs:498-514 | a `setvar` adds points exactly if it names `anomaly_score` in any letter case: by the most severe macro it names, or literally |
| `ActionMeaning.LiteralRead` | crates/budu-rules/src/modsec.rs:515-526 | a literal amount is the number after the last plus sign; one that is no 32-bit number counts as 5 |
| `SecRuleFile.ReadRulesKnown` | crates/budu-rules/src/modsec.rs:228-235 | a rule read from text carries no transform the engine would refuse |
| `SecRuleFile.RuleRead` | crates/budu-rules/src/modsec.rs:552-691 | a SecRule written out in quoted tokens, with any spacing, is read as exactly the rule it states |
| `SecRuleFile.ConvertText` | crates/budu-rules/src/modsec.rs:80-160 | from the text of the file: reports exactly the groups its logical lines form |
| `ModSec.GroupingConserves` | crates/budu-rules/src/modsec.rs:92-128 | every rule that parses lands in exactly one group, in file order |
| `GroupReading.GroupsRead` | crates/budu-rules/src/modsec.rs:86-128 | a file of whole chains, every rule but the last of each asking for another one, with blank lines and comments anywhere, is read as exactly those chains, in order, each with all its rules |
| `ModSec.GroupsAccounted` | crates/budu-rules/src/modsec.rs:130-144 | every group is converted or noted as skipped, never both |
| `ModSec.BrokenMemberTruncates` | crates/budu-rules/src/modsec.rs:107-128 | a chain is cut, after any number of members, where the next line is not a readable rule; that line is in no group |
| `ModSec.BrokenAccounted` | crates/budu-rules/src/modsec.rs:92-127 | each rule that does not parse is noted as a group of its own unless it stands where a chain member was due; all are noted if and only if none directly follows, blank lines aside, a rule that asks for a chain |
| `ModSec.EntriesAccounted` | crates/budu-rules/src/modsec.rs:86-144 | the report has one entry, converted or skipped, for each SecRule that starts a group, and none for any other directive |
| `SecRuleFile.ScriptPassedOver` | crates/budu-rules/src/modsec.rs:93-97 | `SecRuleScript` is passed over as another directive |
| `ModSec.SuffixesDistinct` | crates/budu-rules/src/modsec.rs:293-300 | the ids of the alternatives stay distinct exactly for up to 256 variables (with wrapping byte arithmetic) |
| `ImportMeaning.UnchainedRun` | crates/budu-rules/src/modsec.rs:290-312 | the rules of an unchained rule together decide exactly when the OR of its mapped variable conditions holds, and score once per matching variable |
| `ImportMeaning.ChainedRun` | crates/budu-rules/src/modsec.rs:313-332 | the rule of a chain decides exactly when every member matches |
| `ImportMeaning.ImportPreservesMeaning` | crates/budu-rules/src/modsec.rs:254-364 | for a whole file and every request: compiled and run by the engine, the emitted rules give the verdict of the first group that decides, by the starter's own flags, status and score and its mapped conditions, and with none block exactly when the groups' points reach the threshold |
| `ImportReading.VariableKept` | crates/budu-rules/src/modsec.rs:367-409 | the importer supports exactly the variables that stand for a field of the engine, and names that field |
| `ImportReading.ImportKeepsReading` | crates/budu-rules/src/modsec.rs:254-364 | the same by a reading that stands beside the importer: what variables offer, what operators ask, and the starter's own flags, status and score; allow lets through and scores nothing, a score decides nothing and adds its points per match, a disruptive starter denies with its status or 403 |
| `ImportReading.RulesCarry` | crates/budu-rules/src/modsec.rs:290-332 | every rule of a group carries the starter's message, and an id made from the starter's with a letter for each of several |
| `ImportReading.NotesName` | crates/budu-rules/src/modsec.rs:130-144 | a group that does not convert is noted under its starter's id, or `?`, with the complaint |
| `ImportLosses.ReportLosesNothing` | crates/budu-rules/src/modsec.rs:338-364 | the rules of a report hold a condition for every variable of every group that converts if and only if none of those variables is excluded or unsupported |
| `ImportLosses.LossUnreported` | crates/budu-rules/src/modsec.rs:346-352 | a file whose unusable variables were never written gives the very same report: rules, count, notes and warnings |
| `ImportLosses.TransformsKeptExactly` | crates/budu-rules/src/modsec.rs:228-235 | a rule keeps every transform its actions state if and only if each unsupported one is cleared by a later `t:none` |
| `ImportLosses.TransformUnreported` | crates/budu-rules/src/modsec.rs:228-235 | a rule whose unsupported transforms were never written is read as the very same rule |
| `ImportLosses.LaterActionsUnread` | crates/budu-rules/src/modsec.rs:254-288 | a group is built the same if every member after the first is reduced to its condition: a later member's phase, verdict, status and score are not read |
| `ImportLosses.RegexSelectorLost` | crates/budu-rules/src/modsec.rs:350-352 | `ARGS` with `REQUEST_HEADERS:/x/` converts to one rule with nothing skipped and no warning |
| `ImportLosses.EntityDecodeLost` | crates/budu-rules/src/modsec.rs:230-234 | `t:htmlEntityDecode` leaves no trace |
| `ImportLoads.ImportLoadsExactly` | crates/budu-rules/src/ruleset.rs:306-432 | the engine loads an imported file if and only if the scoring status is valid and, in every group that converts, the starter's status and points are usable and every usable variable has a name where one is needed and an argument its operator can take on that field |
| `ImportLoads.IpMatchOnArgs` | crates/budu-rules/src/modsec.rs:434-440 | `@ipMatch` on ARGS converts, and the engine refuses the result |
| `Tokenizer.Tokenize` | crates/budu-rules/src/modsec.rs:564-609 | the cursor loop returns the tokens |
| `Tokenizer.TokensRoundTrip` | crates/budu-rules/src/modsec.rs:564-609 | printing any list of tokens in double quotes with any whitespace between them and tokenising returns the list if and only if every backslash of every token pairs with a following character that is not a quote |
| `Tokenizer.BareToken` | crates/budu-rules/src/modsec.rs:594-604 | a token without a quote in front goes on to the next whitespace, with quotes and backslashes inside it as they are |
| `Tokenizer.QuotedToken` | crates/budu-rules/src/modsec.rs:572-593 | either kind of quote opens a token that ends at the next quote of that kind; without one it takes the rest |
| `Reputation.SharedBlocks.Contains` | crates/budu-reputation/src/lib.rs:90-93 | true exactly when some entry still in force covers the address |
| `Reputation.SharedBlocks.PruneExpired` | crates/budu-reputation/src/lib.rs:98-105 | leaves exactly the entries still in force, in order |
| `Reputation.ParseBlocklist` | crates/budu-reputation/src/lib.rs:155-208 | returns exactly the entries the lines state that are in force now, in order |
| `Reputation.LineRead` | crates/budu-reputation/src/lib.rs:155-208 | a line of words, with or without a comment, states one network, its first word, until the time of its last `until=`; it states nothing if that word is no network or some `until=` has no time |
| `Reputation.ParseDropsExpired` | crates/budu-reputation/src/lib.rs:155-208 | dropping at parse is the same as reading everything and dropping afterwards |
| `Reputation.UnexpiredListed` | crates/budu-reputation/src/lib.rs:98-105 | dropping expired entries changes no answer, then or at any later time |
| `Reputation.BuiltListed` | crates/budu-reputation/src/lib.rs:66-72 | a list built at one time answers, ever after, as its sources with nothing dropped |
| `Bans.BanLineRead` | crates/budu/src/ban.rs:190-202 | the line a ban writes reads back as that ban |
| `Bans.WithoutReads` | crates/budu/src/ban.rs:91-97 | removing the lines of a network removes exactly its entries |
| `Bans.LineNetRead` | crates/budu/src/ban.rs:62-68 | `unban` goes by a line's first word, even where the line states nothing |
| `Bans.BanReads` | crates/budu/src/ban.rs:184-204 | after a ban the file states that ban alone for its network, and everything else as before |
| `Bans.DurationReads` | crates/budu/src/ban.rs:41-58 | a count alone, or with `s`, `m`, `h` or `d`, is read as that many seconds, minutes, hours or days, at most 2^64-1 seconds |
| `Bans.ListFile.Ban` | crates/budu/src/ban.rs:184-204 | replaces the network's lines by the new one; a bad target or duration leaves the file alone |
| `Bans.ListFile.Unban` | crates/budu/src/ban.rs:208-222 | removes the network's lines and reports how many |
| `Bans.BanLifecycle` | crates/budu-reputation/src/lib.rs:88-105 | in every run of bans, unbans, edits, refreshes, failed refreshes, prunes and ticks, the live list answers for every address and every later time as the inline networks plus all entries of the last loaded file |
| `Bans.BanTakesEffect` | crates/budu/src/ban.rs:184-204 | once loaded, through every later run of prunes, ticks, edits and failed refreshes, a ban holds exactly until its time is up, with no further step, and other entries answer as before |
| `Bans.UnbanTakesEffect` | crates/budu/src/ban.rs:208-222 | once an unban is loaded, only inline networks and other entries list an address, through every such later run |
| `Bans.ReadingReadsBans` | crates/budu-reputation/src/lib.rs:155-208 | the file is read the way the two results above ask: ban lines read back, and an entry's network is its line's |
| `Pipeline.Run` | crates/budu-pipeline/src/lib.rs:164-191 | the stage loop gives the outcome and the context of the fold |
| `Pipeline.FirstStopDecides` | crates/budu-pipeline/src/lib.rs:164-191 | the first stage that does not continue decides, and later stages never see the request |
| `Pipeline.ClosedFailsOnPanic` | crates/budu-pipeline/src/lib.rs:177-183 | for every stage list, fail-closed answers the 500 block exactly when the first stage that does not continue panics or answers with that very block itself |
| `Pipeline.OpenSkipsPanics` | crates/budu-pipeline/src/lib.rs:184-186 | fail-open equals running the same stages with panics turned into continues, the context kept as the panicking stage left it |
| `Pipeline.LeftoverExactly` | crates/budu-pipeline/src/lib.rs:165-187 | a stage is handed the context a panicking stage left if and only if the policy is open and a stage other than the last is reached and panics |
| `Pipeline.LeftoverDecides` | crates/budu-pipeline/src/lib.rs:165-187 | what a panicking stage left can decide: a stage that alone allows blocks after the panic |
| `Pipeline.EvaluateIsOneRun` | crates/budu-pipeline/src/lib.rs:147-162 | two halves are one run over early ++ late if and only if no early stage stops with Allow, or the late stages then leave the context alone and allow |
| `StandardPipeline.EarlyStackNeverAllows` | crates/budu-pipeline/src/lib.rs:68-90 | no stage of the stack that `from_config` builds ever stops with Allow |
| `StandardPipeline.EarlyDecides` | crates/budu-pipeline/src/lib.rs:68-90 | the standard early stages stop a request with the first reason against it: listed, country, rate limit, URI length, number of headers, malformed Content-Length, each with its own answer; with none it goes on, located and normalised |
| `StandardPipeline.LateDecides` | crates/budu-pipeline/src/lib.rs:84-90 | the late stages: an `allow`, `block` or `rate_limit` outcome of the rules is the answer, so an `allow` rule passes the signatures by; without an outcome the signatures answer |
| `StandardPipeline.StackDecides` | crates/budu-pipeline/src/lib.rs:147-162 | the whole standard stack: the first early reason, or else the rules, or else the signatures, on the request located and normalised |
| `StandardPipeline.EarlyBlockMeansPanic` | crates/budu-pipeline/src/lib.rs:68-90 | among the standard early stages that answer means a panic, and nothing else does |
| `StandardPipeline.RuleCanLookLikeAPanic` | crates/budu-rules/src/stage.rs:103-118 | a rule under that id, status and message compiles and makes the late stages give the same answer with no panic |
| `StandardPipeline.StandardEvaluatesAsOneRun` | crates/budu-pipeline/src/lib.rs:68-90 | so for every configuration, panic behaviour, late stack and policy, the two halves are one run |
| `Metrics.Bump` | crates/budu-common/src/lib.rs:137-165 | one more on one counter, and no other counter changes |
| `Metrics.Counters.Record` | crates/budu-common/src/lib.rs:144-151 | counts a decision under its own counter and no other |
| `Protocol.MoveShares` | crates/budu-proxy/src/lib.rs:143-288 | every protocol step moves each counter by exactly what the request's own account of itself grows by |
| `Protocol.Conservation` | crates/budu-proxy/src/lib.rs:143-288 | at every moment of every interleaving: allowed + blocked + ratelimited + undecided = requests + replies replaced by a response rule |
| `Protocol.FailuresWereAllowed` | crates/budu-proxy/src/lib.rs:227-284 | upstream errors + replaced replies <= allowed |
| `Protocol.WouldBlockBound` | crates/budu-proxy/src/lib.rs:274-279 | would_block <= 3 x requests |
| `Protocol.WhitelistedAgainstAllowed` | crates/budu-proxy/src/lib.rs:160-163 | whitelisted + inspected requests let through = allowed + trusted requests caught between the two counters; so whitelisted <= allowed if and only if no more are caught there than inspected ones were let through |
| `Protocol.WhitelistedLeads` | crates/budu-proxy/src/lib.rs:160-163 | a run in which whitelisted exceeds allowed |
| `Protocol.DetectNeverBlocks` | crates/budu-proxy/src/lib.rs:263-288 | in detect mode no block is enforced except the body limit |
| `Protocol.TrustedNeverInspected` | crates/budu-proxy/src/lib.rs:157-170 | an allowlisted request is never refused, replaced or noted, in either mode |
| `Proxy.BufferBody` | crates/budu-proxy/src/lib.rs:331-362 | complete exactly when no frame is broken and the data fits, with all the data in order; otherwise the first trouble met decides the error |
| `Proxy.ActOn` | crates/budu-proxy/src/lib.rs:263-288 | stops on a rate limit or an enforced block, goes on otherwise, and moves exactly the one counter due |
| `Proxy.InspectResponse` | crates/budu-proxy/src/lib.rs:305-388 | takes the response step of the protocol; a delivered reply keeps the upstream's status and data, and a buffered one has its length pinned |
| `Proxy.PinnedFraming` | crates/budu-proxy/src/lib.rs:381-387 | a reply that was buffered has exactly one length, the exact one, no transfer coding, and every other header as it was |
| `Proxy.HandleInner` | crates/budu-proxy/src/lib.rs:143-242 | a decision is enforced: an untrusted request that the early stages, the body gate or the late stages stop gets that very answer, a reply that is objected to is replaced by the block, and every counter ends where the request's fate puts it; it is counted as allowed exactly when it is trusted or nothing stops it before the upstream |
| `Proxy.ScriptEnds` | crates/budu-proxy/src/lib.rs:143-242 | the protocol, taken alone through any surroundings, ends in the fate they determine, with all seven counters settled accordingly |
| `Proxy.AloneIsARun` | crates/budu-proxy/src/lib.rs:143-242 | one request's steps are a run of the whole protocol from wherever the other requests are, so the laws above cover the handler |
| `ForwardHeaders.SanitizeForwardHeaders` | crates/budu-proxy/src/lib.rs:527-550 | the removal loops leave the headers not dropped, in order, then the exact length of a buffered body |
| `ForwardHeaders.CrossesExactly` | crates/budu-proxy/src/lib.rs:527-550 | a header crosses exactly if it was there and is neither hop-by-hop, nor named in the first Connection value, nor a superseded length, or is the pinned length |
| `ForwardHeaders.NeverCrosses` | crates/budu-proxy/src/lib.rs:510-550 | none of the eight hop-by-hop names crosses, and a buffered body's length is only ever the exact one |
| `ForwardHeaders.ConnectionRead` | crates/budu-proxy/src/lib.rs:529-541 | the first Connection value gives the names written in it, spaces aside, in small letters |
| `ForwardHeaders.NamedDroppedExactly` | crates/budu-proxy/src/lib.rs:521-550 | no header named in any Connection value crosses if and only if every such header present is also named in the first value, hop-by-hop, or a superseded length |
| `ForwardHeaders.SecondConnectionIgnored` | crates/budu-proxy/src/lib.rs:529-541 | `Connection: close` and then `Connection: x-a` let `x-a` through |
| `ForwardHeaders.OneConnectionSuffices` | crates/budu-proxy/src/lib.rs:529-541 | with at most one Connection value, nothing crosses under a name it gives, but for the pinned length |
| `ForwardHeaders.SanitizedIsStable` | crates/budu-proxy/src/lib.rs:527-550 | sanitising twice is sanitising once |
| `Supervisor.Reloadable.Apply` | crates/budu-pipeline/src/lib.rs:232-244 | succeeds exactly if signatures, time zone, rules in that zone and allow file load; then signatures and rules are what the disk holds for this configuration, and an address is allowlisted from now on exactly if an inline allow network or an unexpired entry of the allow file covers it; otherwise nothing changes |
| `Supervisor.Reloadable.RefreshBlocklist` | crates/budu-pipeline/src/lib.rs:249-268 | succeeds exactly if the block file is blank or loads; then an address is listed from now on exactly if an inline block network or an unexpired entry of that file covers it; otherwise nothing changes |
| `Supervisor.Reloadable.RunMaintenance` | crates/budu-pipeline/src/lib.rs:270-275 | drops idle rate-limit buckets, expired counters and expired list entries, and nothing else |
| `Supervisor.Reloadable.Supervise` | crates/budu/src/main.rs:245-290 | the event loop takes the state through the events one after the other |
| `Supervisor.ReloadSafety` | crates/budu/src/main.rs:245-290 | after every run of good and broken signals, refreshes, maintenance, time and traffic, from any state: signatures, rules and allowlist (as answered) are those of the last configuration that loaded whole, told from that configuration and its files |
| `Supervisor.ReloadKept` | crates/budu/src/main.rs:245-290 | with no good configuration in a run, signatures, rules and every answer of the allowlist are what they were |
| `Supervisor.BlocksSafety` | crates/budu/src/main.rs:245-290 | the block list answers as the inline networks and the file of the last refresh that loaded, by signal with the configuration it brought or by timer with the stored one |
| `Supervisor.BlocksKept` | crates/budu/src/main.rs:245-290 | with no refresh that loads in a run, every answer of the block list is what it was |
| `Supervisor.StoredIs` | crates/budu/src/main.rs:245-290 | the stored configuration is the last one a signal could read, whether or not it loaded |
| `Supervisor.CountersSurvive` | crates/budu-pipeline/src/lib.rs:232-275 | no reload, refresh or maintenance is ever visible in a counter or in a bucket of the global rate limiter: every key and every client reads there as in the run with only traffic and time |
| `Reloads.ReloadInvisible` | crates/budu-rules/src/ruleset.rs:482-545 | reloading the rules in force, at any point of any run, changes no verdict of any client if none of those rules is a `rate_limit` |
| `Reloads.ReloadForgetsChecks` | crates/budu-pipeline/src/lib.rs:232-244 | a `rate_limit` rule that throttles a client's second request does not do so if the same rules are reloaded between the two |

## Left out

- Sockets, TLS, the HTTP server and client, timeouts, request ids, URI rewriting, client address
  resolution, tracing, audit lines, the admin endpoint: plumbing around what is modelled.
- Which bodies are worth inspecting (`should_inspect_body`, `response_body_inspectable`, declared
  lengths): single predicates, taken as inputs of the handler.
- Internals of governor, moka, regex, Aho-Corasick, ipnet, maxminddb, serde_json and libinjection.
- File reads and writes, remote feeds, the pidfile and sending SIGHUP: a list file is its lines, and
  what loads is an input of each event.
- TOML reading and printing: rules start as parsed definitions and end as emitted rule values; the
  wording of notes and warnings.
- Built-in signatures and what the regexes detect; config validation; byte-size parsing.
- Characters beyond single bytes in text: case mapping and whitespace outside ASCII.
- Header order across different names after a removal (`HeaderMap` may reorder): headers are a list.
- Metrics.Bump: counts without bound; the source's u64 counters wrap after 2^64 increments, and a
  snapshot that reads them one after the other is not modelled.
- ModSec.SuffixesDistinct: byte arithmetic wraps, as in a release build; a debug build panics from 160
  variables on.
- Reputation.ParseBlocklist: `until=` is honoured, as with the `fail2ban` feature on.
- Rules.CompileWithTz: the day mask is the set of its set bits.
- StandardPipeline.EarlyStackNeverAllows: the block list, country and limiter answers are functions of
  the address; their own state is in `Reputation`, `Engine` and `Supervisor`.
