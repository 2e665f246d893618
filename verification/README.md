# Verified model of the streaming, analysis and codec core

This project models, in Dafny, the parts of the repository whose correctness rests on an argument
rather than on wiring, and proves that argument for every input or every run.

**Streaming tool calls.** `ToolCallMapper` is the stateful mapper that turns tagged nodes into a chat
message; `PythonValue`, `JsonText` and `PartialTree` are the Python-to-JSON rewriter, the brace counter
and the tree printer that feed it; `TreeMapper` is the second mapper, which reads nested trees.
`MessageDiff` computes the deltas between successive messages and puts them together again.
`UnfinishedTrees` proves that a tree cut off anywhere prints all that was read.
`Streaming` proves the whole pipeline append-only over runs, with the exact condition under which a
single node, or the growth of the newest node, keeps it so; `TidyStreams` gives a test on the nodes
alone that makes a whole run sound, and shows that the streams of the call builders pass it.
`Announcements` proves that every call is named once, `FilteredSession` models a session that holds names
back, `HeadingOrder` proves what its receiver gets and in which order, and `TreeSessions` says the same for
growing trees. `CallRendering` proves that a closed call carries the JSON object of its arguments, strings and
Python values, and `MessageContents` that a whole message has exactly the texts and calls of its parse.
`MessageSpans` cuts a tokenized prompt into messages around media regions.

**Template analysis.** `MarkerLexer` is the marker lexer and proves it inverse to concatenation;
`DiffSplit` is the two-ended comparison of two templates, with the exact condition under which its
three parts rebuild both; `DiffExtent` proves that the shared parts are as large as they can be.

**Low-rank tensors.** `LowRank`, `LowRankChains` and `LowRankRequests` model a tensor kept as a product of two factors and
prove that operations on the factors, alone and in chains, are the operations on the product;
`TensorMeaning` says entry by entry what product and operations are. Entries
are real numbers, so rounding is not part of the statement.

**Strings and codecs.** `Splitting`, `Glob` and its laws in `GlobLaws`, `LongestCommon`, `Escapes`, `Base64`, `RepoFolder`.

**Legacy model files.** `GgmlFile`, `GgmlParts`, `GgmlTensors`, `GgmlLoader` and `GgmlModel` model the
sequential loader and prove that it succeeds exactly on files laid out as their contents demand;
`GgmlLayout` says where each field stands.

Loops and objects of the source are methods and classes here, each proved equal to a function of its
inputs or of its old state; the theorems are about those functions.
To verify the project: `dafny verify dfyconfig.toml`.

Where the code and a comment beside it, or a natural expectation, disagree, the model follows the code
and states the difference as a theorem:

- comparing `<a><b>` with `<a><b><b>` reports no difference (`DiffSplit.RepeatedMarkerIsLost`), because
  the follow-up match ignores what the loop already used up on one side;
- a class that begins with `[!]` is complete and accepts any character, whatever follows it
  (`Glob.EmptyNegatedClassAcceptsAll`), although the comment at common/common.cpp:709 says a `]` right
  after the negation is literal; these are the only patterns whose class ends elsewhere than the comment
  promises (`Glob.ClassEndsAsCommentedExactly`);
- a media region that starts inside the one before it disables every later region
  (`MessageSpans.OverlapLosesLaterSkips`);
- a Python value cut inside a word, or between a backslash and an apostrophe, can be rewritten to text
  that the whole value's rewriting takes back (`PythonValue.OutputIsTakenBack`;
  `PythonValue.NormalizeKeepsPrefixes` says exactly when);
- a Python string with an escape that JSON lacks, such as `'\x41'`, or with `\/`, is rewritten to a text
  that means something else or nothing (`PythonValue.MeaningIsLost`;
  `PythonValue.NormalizedStringMeansTheSameExactly` says exactly when it keeps its meaning);
- a tensor list is accepted although its last data region runs past the end of the file
  (`GgmlTensors.OverrunExample`); so is every file cut in its last region (`GgmlLoader.CutFileIsLoaded`),
  and the list lies inside the file exactly when it is laid out in it
  (`GgmlTensors.StopsInsideExactlyWhenLaidOut`);
- a second name, or an arguments object that does not restate what was written, makes a message that is
  not a continuation (`Streaming.StepContinuesExactly`), and the deltas can be refused
  (`Streaming.TakingBackIsRefused`);
- slicing a batched low-rank tensor without a tuple, as in `[1:2]`, is accepted and empties its right factor
  alone, unless the slice takes in position 0 of one or is empty (`LowRankRequests.SecondOfBatch`;
  `LowRankRequests.BareSliceIsRightExactly` says exactly when it is right), and of bare positions only 0 and
  -1 are granted (`LowRankRequests.BareAtExactly`).

## Model

| member | source | states |
|---|---|---|
| ToolCallMapper.Mapper.Map | common/chat-peg-parser.cpp:277-418 | handling one node takes the fields from the old state to the specified next state, in all branches: open, close, id, name, arguments object, argument name, value, string value, argument close, reasoning, content |
| ToolCallMapper.Mapper.FromAst | common/chat-peg-parser.cpp:246-275 | after all nodes in order the message has the content and the calls of the run, and its reasoning unless each character of that is a blank, a tab, a line feed or a carriage return, in which case none; the flush of a named pending call never has work to do |
| ToolCallMapper.OutcomeExactly | common/chat-peg-parser.cpp:260-274 | content and calls are handed out as they are, and so is reasoning with any character but these four; other reasoning is dropped |
| ToolCallMapper.StepValid | common/chat-peg-parser.cpp:277-418 | between nodes a pending call is unnamed and without arguments, and the current-tool pointer refers to it or to the last emitted call |
| ToolCallMapper.TrimTrailingSpace | common/chat-peg-parser.cpp:11-21 | as many trailing blanks go as there are, or as the limit allows |
| ToolCallMapper.TrimLeadingSpace | common/chat-peg-parser.cpp:23-33 | as many leading blanks go as there are, or as the limit allows |
| ToolCallMapper.TrimExactly | common/chat-peg-parser.cpp:35-37 | a trimmed text begins behind its first character if that is blank, and all characters cut off behind it are blanks, the last one kept being none |
| Streaming.StepContinuesExactly | common/chat-peg-parser.cpp:277-418 | a node leaves a continuation of the message if and only if what it overwrites, if anything, is restated |
| Streaming.TakingBackIsRefused | common/chat-peg-parser.cpp:319-348 | a stream with two names and one with two arguments objects, for which the deltas are refused |
| Streaming.GrowthContinuesExactly | common/chat-peg-parser.cpp:304-417 | whatever its tag, the newest node's text may become longer with the message only growing if and only if a stated test on state and texts holds; ids do not count, and names and argument names must stay what they are, which the builder ensures by making those nodes atomic (common/chat-peg-parser.h:80-88) |
| Streaming.GrowingNameIsSentAgain | common/chat.cpp:290-330 | a name that grows on a call not yet on show is no continuation, yet the deltas exist and rebuild the message |
| Streaming.RunEffects | common/chat-peg-parser.cpp:277-418 | nodes without effect can be dropped from a stream without changing the outcome |
| Streaming.RunOfEffects | common/chat-peg-parser.cpp:277-418 | the same for every stream the mapper may be given, whether or not it only adds to the message |
| Streaming.StreamsContinue | common/chat-peg-parser.cpp:246-418 | a stream that grows at its newest node and then adds nodes yields a message that continues the earlier message |
| Streaming.OrderlyStreamsAreSafe | common/chat-peg-parser.cpp:304-417 | streams with one non-blank name per call, and no arguments object over argument nodes, are safe at every node |
| Streaming.StreamingIsSound | tools/server/server-task.cpp:158-177 | over any chain of streams each continuing the last, no delta is ever refused, and all deltas applied to the empty message give exactly the final message under the session's ids |
| TidyStreams.TidyStreamingIsSound | common/chat-peg-parser.cpp:246-418 | for any run of tidy streams, each adding effective nodes or text in its newest one, wrappers growing as they may, every delta is accepted, the deltas rebuild the final message, and each call is announced once |
| TidyStreams.TidyIsStreamable | common/chat-peg-parser.cpp:277-418 | the test (one non-blank name a call; an arguments object before the name or while nothing but the opening brace is written; nothing after an unnamed call) follows the mapper's state, so every node of a tidy stream only adds to the message |
| TidyStreams.BuiltStreamsAreTidy | common/chat-peg-parser.cpp:418-800 | any sequence of texts, of calls with a name and tagged arguments, wrapped or not, and of calls with a name and an arguments object in either order, with ids around them, cut off anywhere, is tidy |
| TidyStreams.EffectsAreTidy | common/chat-peg-parser.cpp:277-418 | dropping nodes without effect keeps a stream tidy |
| TidyStreams.TidyStreamsGrow | common/chat-peg-parser.cpp:304-417 | a tidy stream that gets more nodes of effect, or more text in its newest one, grows in the sense the run theorem needs |
| Streaming.SessionFollows | tools/server/server-task.cpp:158-177 | the same for any chain of messages, from any session; ids given once are only added to |
| Streaming.UpdateExactly | tools/server/server-task.cpp:158-177 | an empty parse changes nothing; any other becomes the chat message under the cached, given or generated ids, and the deltas lead there from the old one |
| Streaming.SetToolCallIds | common/chat.h:108-120 | the loop gives every call the id cached for its position, filling the cache with the call's own id or a generated one |
| Streaming.IdsAfterExtends | common/chat.h:108-120 | the id cache only grows, and afterwards has an id for every call |
| Streaming.IdsAfterExactly | common/chat.h:108-120 | each entry is the one cached before, or else the id its call came with, or else a generated one |
| FilteredSession.ResultState.UpdateChatMsg | tools/server/server-task.cpp:158-231 | the text grows and is parsed again; an empty parse changes nothing else, any other replaces the message under its ids and yields the deltas from the old one, unfiltered or filtered, with the set of calls whose name was sent |
| FilteredSession.FilterDiffs | tools/server/server-task.cpp:178-226 | the nested loops and the final flush send the specified deltas |
| FilteredSession.FilterLeavesTheSession | tools/server/server-task.cpp:158-231 | with the filter the session is the same as without it, only what is sent differs |
| HeadingOrder.FilteredStreamingIsSound | tools/server/server-task.cpp:158-231 | over any chain of growing streams ended by a final update, the filtered deltas give a receiver every call that has a name or arguments, exactly as in the final message; each call is headed once, by the first delta about it, a named one before any of its arguments, and if all have names they are headed in turn |
| HeadingOrder.TidyFilteredStreamingIsSound | tools/server/server-task.cpp:158-231 | the same for runs of tidy streams, in which every call has a name |
| HeadingOrder.FilteredRunIsSound | tools/server/server-task.cpp:158-231 | the same for any chain of messages, in turn if none has a call without a name, or one without arguments ahead of another |
| HeadingOrder.OrderKeptExactly | tools/server/server-task.cpp:178-226 | with the first calls headed, an update heads the named calls of its message in turn if and only if it does not bring, ahead of all other deltas, a new call without arguments that another new call follows |
| MessageContents.MappedCallsHaveArguments | common/chat-peg-parser.cpp:277-418 | the tagged mapper never emits a call without arguments, so it never brings such an update |
| FilteredSession.UpdateLeads | tools/server/server-task.cpp:158-231 | between updates the receiver has the texts and, of the calls named so far, all there is; calls held back have no arguments yet |
| FilteredSession.HeldBackExactly | tools/server/server-task.cpp:178-226 | while a message is partial, the only name that can be held back after an update is that of the call whose delta without arguments came last |
| FilteredSession.BareCallIsHeldBack | tools/server/server-task.cpp:178-226 | when all other names are sent, nothing goes out about a new call without arguments while the message is partial, and its name and id alone at the end |
| HeadingOrder.SecondIsNamedFirst | tools/server/server-task.cpp:179-191 | the smallest such update, which neither mapper makes: of two new calls, the first without arguments, the second is headed first |
| Announcements.CallsAreAnnouncedOnce | common/chat.cpp:290-330 | over a whole run each call is introduced by one delta, in order, with its final name and id; all later deltas about it carry arguments only |
| Announcements.HeardExactly | common/chat.cpp:264-330 | a client that never revises names and ids ends with those of the new message if and only if no known name or id changed |
| MessageDiff.ComputeDiffs | common/chat.cpp:264-330 | the loop computes the specified deltas, including every refusal |
| MessageDiff.DeltasExactly | common/chat.cpp:264-330 | for a continuation the deltas are what the reasoning has more, what the content has more, what the last known call has more, with name and id only if one changed, and each new call as a whole, in this order; there are none if and only if nothing changed |
| MessageDiff.StringDiffExactly | common/chat.cpp:54-67 | a text gives what it has more, nothing if it was cut back, and a refusal otherwise |
| MessageDiff.DiffsRebuildExactlyContinuations | common/chat.cpp:54-67 | the deltas exist and rebuild the new message if and only if it continues the old one |
| MessageDiff.DiffsFailExactlyWhenRefused | common/chat.cpp:264-330 | the deltas are refused if and only if a text is neither kept nor extended nor cut back, a call disappears, or the last known call's name changes to something it does not start |
| MessageDiff.RunRebuilds | common/chat.cpp:264-330 | along any run of continuations all deltas together rebuild the last message from the first |
| JsonText.EscapeRoundTrip | common/chat-peg-parser.cpp:70-76 | decoding a JSON-escaped text gives the text back |
| JsonText.EscapeKeepsPrefixes | common/chat-peg-parser.cpp:70-76 | escaping a longer text only appends to the escaped shorter one |
| JsonText.EscapesChosen | common/chat-peg-parser.cpp:70-76 | the escapes the serializer chooses for quote, backslash and control characters; every other character stands for itself |
| JsonText.CountBraces | common/chat-peg-parser.cpp:41-67 | the quote-aware counting loop returns the specified brace depth |
| JsonText.ScanQuoted | common/chat-peg-parser.cpp:41-67 | any escaped text between quotes leaves the brace counter where it was |
| PythonValue.NormalizedDepth | common/chat-peg-parser.cpp:41-185 | in a rewritten value of strings, words and symbols, nested objects included, the counter finds the braces opened beyond those closed between the strings, and ends outside a string |
| CallRendering.CallIsClosed | common/chat-peg-parser.cpp:304-417 | wherever the name and the ids fall among the argument nodes, a closed call is emitted once, under its last id, with the opening brace, the keys with each value as quoted string or as the rewriter makes it, and a closing brace for each one open |
| CallRendering.CallIsRendered | common/chat-peg-parser.cpp:304-417 | if the values leave no brace open, those arguments are exactly the reference rendering, at brace depth zero |
| CallRendering.PythonCallIsRendered | common/chat-peg-parser.cpp:304-417 | this holds for string values and for Python values of strings, words and symbols with as many braces closed as opened, nested objects included |
| CallRendering.RenderingIsJson | common/chat-peg-parser.cpp:340-417 | that rendering is a JSON object with the argument names as keys, string values with the characters of the argument texts, and the rewriter's text for Python values |
| CallRendering.UnnamedCallsAreNotEmitted | common/chat-peg-parser.cpp:304-338 | a stream without a name node emits no call |
| CallRendering.OpenArgumentsDepth | common/chat-peg-parser.cpp:41-67 | before a call is closed it has one brace open beyond those its values leave open; closing ends outside a string at depth zero, and adds just one brace if the values leave none open |
| MessageContents.TextsAreKept | common/chat-peg-parser.cpp:282-290 | reasoning and content are exactly the texts of their nodes in order, whatever tool nodes come between |
| MessageContents.FinishedMessageIsWhole | common/chat-peg-parser.cpp:246-290 | the message handed out for any stream has all content, all reasoning unless it has nothing but the four blank characters, and the calls of the run |
| MessageContents.StreamedMessageIsWhole | common/chat-peg-parser.cpp:246-290 | so has the message a session works with |
| MessageContents.BuiltMessageIsWhole | common/chat-peg-parser.cpp:246-418 | a message whose parse, wrappers aside, is any sequence of texts, of calls with tagged arguments and of calls given as a whole, has exactly those texts and, in order, those calls with their names, ids and rendered arguments |
| MessageContents.WholeCallIsKept | common/chat-peg-parser.cpp:304-348 | a call given by an id, a name and an arguments object is emitted once under the bare id, quoted or not, with the object, its trailing blanks cut and its open braces closed, whether the name or the object comes first; a balanced object stays unchanged |
| MessageContents.CallInTreeIsClosed | common/chat-peg-parser.cpp:246-418 | in a visited tree, whatever nodes without effect stand around its own, a closed call carries its rendered arguments with all braces closed, under its last id |
| MessageContents.CallInTreeIsRendered | common/chat-peg-parser.cpp:246-418 | and if its values leave no brace open, exactly the reference rendering |
| MessageContents.WholeCallInTreeIsKept | common/chat-peg-parser.cpp:246-418 | in a visited tree a call given as a whole keeps its id and its object |
| PythonValue.NormalizeQuotes | common/chat-peg-parser.cpp:83-185 | the loop over its mode flags computes the specified rewriting |
| PythonValue.MatchLiteral | common/chat-peg-parser.cpp:157-180 | a word that starts a Python literal is measured and looked up as specified |
| PythonValue.NormalizeKeepsPrefixes | common/chat-peg-parser.cpp:83-185 | rewriting a cut text gives an initial part of rewriting the whole if and only if the cut is clean |
| PythonValue.OrdinaryCutIsClean | common/chat-peg-parser.cpp:83-185 | a cut is clean if every word that starts like a literal begins one, and the cut does not part a backslash from an apostrophe |
| PythonValue.OutputIsTakenBack | common/chat-peg-parser.cpp:83-185 | the two smallest cuts after which output is taken back |
| PythonValue.NormalizedStringMeansTheSameExactly | common/chat-peg-parser.cpp:83-155 | a Python string in either kind of quotes is rewritten to a JSON string with its Python meaning if and only if all its escapes are shared |
| PythonValue.MeaningIsLost | common/chat-peg-parser.cpp:83-155 | `'\x41'` is rewritten to no JSON string, and `'\/'` to one without its backslash |
| PythonValue.NormalizeSingleQuoted | common/chat-peg-parser.cpp:83-155 | a single-quoted string is rewritten to a double-quoted one with its body requoted, whatever it escapes |
| PythonValue.NormalizeDoubleQuoted | common/chat-peg-parser.cpp:83-155 | a double-quoted string is copied, whatever it escapes |
| PythonValue.NormalizeKeepsMeaning | common/chat-peg-parser.cpp:83-185 | a Python value of strings with shared escapes, words and symbols becomes the JSON text of the same pieces in the same order: strings with the characters they had in Python, Python's literals, or as much as there is of one, as JSON's, and everything else as it is |
| PartialTree.PrintJson | common/chat-peg-parser.cpp:926-1019 | the recursive printer with its growing buffer computes the specified text for every rule |
| PartialTree.PrintedTextGrows | common/chat-peg-parser.cpp:926-1019 | if a tree grows along its right spine, the text printed before is an initial part of the text printed after |
| PartialTree.FinishedTreePrintsItsValue | common/chat.cpp:1344-1373 | a finished tree of the grammar's shape prints a JSON document for the value it stands for |
| UnfinishedTrees.UnfinishedTreePrintsWhatWasRead | common/chat-peg-parser.cpp:926-1019 | what a tree of the grammar's shape prints, cut off anywhere, is a JSON document for the value read so far once the missing closers stand behind it, with null for a value not begun |
| UnfinishedTrees.CutStringPrintsItsText | common/chat-peg-parser.cpp:937-950 | a string cut off in its text prints a quote and a text that decodes to all of the characters read |
| TreeMapper.Mapper.FromAst | common/chat-peg-parser.cpp:920-924 | all nodes are visited in order |
| TreeMapper.Mapper.VisitNode | common/chat-peg-parser.cpp:1021-1059 | the recursive visit appends texts, searches a tool node for its name and arguments, emits its call once the name is complete, and descends into other nodes |
| TreeMapper.FindByTag | common/peg-parser.cpp:286-300 | the depth-limited search loop finds the first node with the tag, parents before children |
| TreeMapper.FindIsFirst | common/peg-parser.cpp:286-300 | the search finds a node if and only if one of those within the depth has the mark, and then the first of them in preorder |
| TreeMapper.SearchReachesThreeLevels | common/peg-parser.h:109 | a name three levels down is found, one four levels down is not |
| TreeMapper.FindGrows | common/peg-parser.cpp:286-300 | what a search finds in a parse it finds, grown, in every longer one |
| TreeMapper.CallGrowsOn | common/chat-peg-parser.cpp:1034-1052 | once emitted, a call keeps its name while the parse grows, and its arguments only grow |
| TreeMapper.VisitCollects | common/chat-peg-parser.cpp:1021-1059 | the message holds the texts and the complete calls of all nodes in order, however they are nested |
| TreeMapper.VisitAllGrows | common/chat-peg-parser.cpp:1021-1059 | nodes that grow at the newest end, at any depth, give a message that continues the earlier one |
| TreeMapper.TreeStreamingIsSound | common/chat-peg-parser.cpp:920-1059 | over any run of growing trees no delta is refused and the deltas rebuild the final message |
| TreeSessions.TreeCallsAreAnnouncedOnce | common/chat-peg-parser.cpp:920-1059 | over any run of growing trees each call is announced by one delta, in order, with its final name |
| TreeSessions.TreeFilteredStreamingIsSound | common/chat-peg-parser.cpp:920-1059 | the same for a session that holds names back; calls are headed in turn if each has a name and each but the newest has begun its arguments |
| TreeSessions.ReadArgumentsPrint | common/chat.cpp:1384-1387 | a call whose arguments dictionary has begun has arguments |
| TreeSessions.BuiltCallIsEmitted | common/chat.cpp:1383-1387 | a tool node as the grammar builds it gives one call with the name it holds and what its dictionary prints |
| TreeSessions.EmittedCallIsJson | common/chat-peg-parser.cpp:1034-1052 | the arguments of an emitted call are JSON for the dictionary read so far, but for the missing closers, and JSON for its value once it is read |
| MessageSpans.SplitSpans | common/chat.cpp:150-182 | both loops together yield the specified spans; the scan ends because tokens and regions left over run out together |
| MessageSpans.FindMatches | common/chat.cpp:150-170 | the scan with its region iterator finds the specified matches |
| MessageSpans.RoleAtIsFirstListed | common/chat.cpp:160-168 | a position has a role if and only if a delimiter matches there, and it is the first listed one's |
| MessageSpans.SpansStartExactly | common/chat.cpp:150-182 | a span with a role starts at a position if and only if no effective region covers it and that role's delimiter is the first to match; spans are never empty and each ends where the next one starts |
| MessageSpans.DisjointRegionsAreSkipped | common/chat.cpp:150-182 | if no region starts inside the one before it, spans start exactly where, outside all regions, the prompt goes on with a delimiter's tokens, the first listed one giving the role |
| MessageSpans.SpansKeepTheTokens | common/chat.cpp:174-179 | the spans put together are the prompt from the first delimiter on |
| MessageSpans.AllLiveExactly | common/chat.cpp:153-159 | all regions take effect if and only if none starts inside its predecessor |
| MessageSpans.OverlapLosesLaterSkips | common/chat.cpp:153-159 | a concrete prompt in which an overlap lets a span start inside a later region |
| MessageSpans.Spans.IsUserStart | common/chat.h:174-181 | true if and only if a user span starts at the position after conversion to 32 bits |
| MessageSpans.Spans.LastUserMessagePos | common/chat.h:183-190 | the start of the last user span, or -1 when there is no user span |
| MessageSpans.LastUserIsGreatest | common/chat.h:183-190 | for prompts of at most 2^31 tokens that position is the greatest user start in the prompt |
| MarkerLexer.SegmentizeMarkers | common/chat-auto-parser-helpers.cpp:269-299 | the loop with its one-character mode computes the specified segments |
| MarkerLexer.LexExactly | common/chat-auto-parser-helpers.cpp:269-299 | a segment list is the lexer's result if and only if it is well formed and its concatenation is the text |
| MarkerLexer.MixedIsLexed | common/chat-auto-parser-helpers.cpp:269-299 | a concrete text with both kinds of markers, a bracket inside an angle marker, and a marker that never closes |
| DiffSplit.CommonPrefixLen | common/chat-auto-parser-helpers.cpp:69-76 | the loop finds the length of the longest common prefix |
| DiffSplit.CommonSuffixLen | common/chat-auto-parser-helpers.cpp:78-85 | the loop finds the length of the longest common suffix |
| DiffSplit.MatchSegments | common/chat-auto-parser-helpers.cpp:100-139 | the two-ended loop over segments reaches the specified window and flags |
| DiffSplit.CalculateDiffSplit | common/chat-auto-parser-helpers.cpp:87-207 | matching, follow-up, character trim and both repairs compute the specified split |
| DiffSplit.DiffRebuildsExactly | common/chat-auto-parser-helpers.cpp:87-207 | prefix, own part and suffix rebuild both templates if and only if the follow-up match does not reuse a segment of a used-up side, or the slip is undone by the last repair |
| DiffExtent.PartsHaveNoCommonEnds | common/chat-auto-parser-helpers.cpp:169-184 | where the first unmatched segments of both sides are text the two parts do not begin with the same character, and where the last ones are, they do not end with the same character |
| DiffExtent.RemainingSegmentsDiffer | common/chat-auto-parser-helpers.cpp:100-165 | where the matching leaves segments on both sides, the first ones differ and the last ones too, but for one equal text left on each |
| DiffExtent.SharedSegmentsAreFound | common/chat-auto-parser-helpers.cpp:87-207 | of two segment lists with the same front and the same end, and parts between that differ at both ends, the split finds the front, the end and the parts, common characters of texts at their ends aside |
| DiffExtent.DifferenceIsFound | common/chat-auto-parser-helpers.cpp:87-207 | it is exactly these where the parts do not both begin, nor both end, with text |
| DiffExtent.MarkerDifferenceIsFound | common/chat-auto-parser-helpers.cpp:87-207 | for lists of markers it is exactly the shared markers in front, the shared ones behind, and the markers between |
| DiffExtent.GreetingIsSplit | common/chat-auto-parser-helpers.cpp:175-184 | two concrete texts are split behind the word and the blank they share |
| DiffExtent.SharedEndComesFirst | common/chat-auto-parser-helpers.cpp:175-179 | a repeated character counts as shared end before it counts as shared front |
| DiffExtent.NoDifferenceIsAllPrefix | common/chat-auto-parser-helpers.cpp:185-190 | a template compared with itself is all prefix |
| DiffExtent.ExtensionIsAllPrefix | common/chat-auto-parser-helpers.cpp:192-205 | a left side that starts the right one, and of which nothing is left over, is the prefix as a whole |
| DiffSplit.RepeatedMarkerIsLost | common/chat-auto-parser-helpers.cpp:141-165 | the concrete pair for which an added marker is reported as no difference |
| Splitting.StringSplit | common/common.cpp:518-532 | the loop returns the specified parts |
| Splitting.StringJoin | common/common.cpp:507-516 | the loop returns the parts with the separator between them |
| Splitting.StringReplaceAll | common/common.cpp:485-500 | the loop replaces as specified; an empty search text changes nothing |
| Splitting.FindIsLeftmost | common/common.cpp:485-532 | the search finds an occurrence with none before it, or none exists |
| Splitting.JoinSplit | common/common.cpp:507-532 | joining the parts gives the text back |
| Splitting.SplitExactly | common/common.cpp:518-532 | a list is the split if and only if it joins to the text and every part is cut at the first separator |
| Splitting.NoPartHoldsSeparator | common/common.cpp:518-532 | no part contains the separator |
| Splitting.ReplaceIsSplitJoin | common/common.cpp:485-500 | replacing all is splitting at the one text and joining with the other |
| Splitting.ReplaceFromLeft | common/common.cpp:485-500 | read from the left, an occurrence at the front is replaced and any other character stays |
| RepoFolder.IsValidRepoId | common/hf-cache.cpp:121-142 | the flag loop accepts exactly the specified names |
| RepoFolder.RepoToFolderName | common/hf-cache.cpp:79-84 | the folder name is the fixed front and the name with slashes replaced |
| RepoFolder.FolderNameSpelled | common/hf-cache.cpp:79-84 | owner and name are written as `models--`, the owner, two dashes and the name |
| RepoFolder.FolderNameToRepo | common/hf-cache.cpp:69-77 | a name without the fixed front is refused, any other is read back as specified |
| RepoFolder.FolderNameRoundTrip | common/hf-cache.cpp:69-84 | the folder name leads back to the repository if and only if no dash is followed by a dash or a slash |
| RepoFolder.ValidRepoRoundTrip | common/hf-cache.cpp:106-142 | every accepted name is read back from its folder name |
| RepoFolder.ValidReposHaveOwnFolders | common/hf-cache.cpp:106-142 | two accepted names never share a folder |
| Glob.GlobMatch | common/common.cpp:747-791 | the recursive matcher ends and returns whether the text matches the parsed pattern, in which a star takes any run without slash, two stars any run, a question mark one character but a slash, a class one character, and an unclosed bracket itself |
| Glob.ClassMatch | common/common.cpp:706-745 | the scan of a class body, with negation and ranges, decides membership as defined by its items |
| Glob.Match | common/common.cpp:793-795 | the public entry decides the match of what precedes the first NUL |
| GlobLaws.LiteralPattern | common/common.cpp:747-791 | a character without a meaning matches itself |
| GlobLaws.QuestionPattern | common/common.cpp:747-791 | a question mark matches one character but a slash |
| GlobLaws.StarPattern | common/common.cpp:747-791 | a star matches any run of characters without a slash |
| GlobLaws.DoubleStarPattern | common/common.cpp:747-791 | two stars match any run |
| GlobLaws.ClassPattern | common/common.cpp:706-791 | a class of plain characters matches one of them, a negated one one of the others |
| GlobLaws.RangePattern | common/common.cpp:706-791 | a range matches one character between its ends |
| GlobLaws.UnclosedBracketPattern | common/common.cpp:747-791 | a bracket that is never closed matches itself |
| Glob.EmptyNegatedClassAcceptsAll | common/common.cpp:706-745 | a pattern that begins with an empty negated class accepts one character of any kind and goes on behind the class |
| Glob.ClassEndsAsCommentedExactly | common/common.cpp:709-779 | a class ends where the comment promises if and only if the pattern does not begin with that class |
| Glob.NegationIsNeverFollowedByBracket | common/common.cpp:706-779 | in a closed class a bracket never follows the negation, so the literal treatment there never applies |
| LongestCommon.StringLcs | common/common.cpp:448-467 | the table loops return a part of both texts than which no common part is longer, and the one ending earliest in the first text |
| LongestCommon.CommonEndIsLongest | common/common.cpp:455-459 | a table entry is the largest length on which the two beginnings end alike |
| LongestCommon.NoCommonStringIsLonger | common/common.cpp:448-467 | every text found in both inputs is at most as long as the answer |
| LongestCommon.FirstLongestIsUnique | common/common.cpp:448-467 | the description of the answer fits one text only |
| LongestCommon.LengthIsSymmetric | common/common.cpp:448-467 | exchanging the inputs keeps the answer's length |
| Escapes.ProcessEscapes | common/common.cpp:623-658 | the in-place loop leaves the decoding of the original buffer at its front |
| Escapes.DecodeOne | common/common.cpp:628-654 | one turn writes behind the reader only, and leaves every unread byte untouched |
| Escapes.UnescapeUndoes | common/common.cpp:623-658 | whichever escape an escaper chooses for each byte, decoding gives the bytes back |
| Escapes.UnknownEscapeStays | common/common.cpp:623-658 | an escape of another letter stays as it is, and so does a backslash at the end |
| Escapes.HexByteExactly | common/common.cpp:637-648 | two characters are taken as a hexadecimal number if and only if the second is a digit and the first a digit, a sign or a blank, and give its value as a byte |
| Escapes.BadHexStays | common/common.cpp:637-652 | an `x` escape without such a number stays as it is |
| Base64.EncodeBytes | common/base64.hpp:79-144 | the encoder's loop returns the specified text, of exactly the announced size |
| Base64.EncodedSize | common/base64.hpp:338-341 | an encoding has the size announced for its input |
| Base64.RoundTrip | common/base64.hpp:199-244 | decoding undoes encoding for both alphabets, whether the decoder knows the alphabet or detects it |
| Base64.KnownEncodings | common/base64.hpp:79-144 | published examples of RFC 4648 section 10, and bytes that need the last two letters of each alphabet, encode as the standard says |
| Base64.DecodesExactly | common/base64.hpp:199-244 | a text decodes if and only if its data uses one alphabet and, unless padding is loose, nothing but padding follows |
| Base64.DecodedSize | common/base64.hpp:321-332 | a decoding has three quarters of the data characters, rounded down, never more than announced |
| Base64.ValueIsExact | common/base64.hpp:344-389 | a character is accepted if and only if it is a letter of an alphabet still possible, and gives its six bits; one that only one alphabet has fixes it |
| Base64.DecodeInPlace | common/base64.hpp:294-306 | decoding over the input gives the same result as decoding aside, and leaves what lies behind the result as it was |
| Base64.DecodeBytes | common/base64.hpp:254-292 | decoding aside gives the specified bytes or refusal, never more than announced |
| Base64.DecodeStep | common/base64.hpp:200-244 | one character writes at most one byte, at a place already read |
| LowRank.TakeProduct | convert_lora_to_gguf.py:58-114 | selecting positions of rows, columns or leading dimensions on the factors selects them on the product |
| LowRank.PickProduct | convert_lora_to_gguf.py:58-114 | taking one position of a leading dimension on the factors takes it on the product |
| LowRank.ReshapeProduct | convert_lora_to_gguf.py:136-160 | reshaping the factors, the last dimension kept, reshapes the product in row-major order |
| LowRank.PermuteProduct | convert_lora_to_gguf.py:168-186 | a permutation that keeps the last dimension last carries over |
| LowRank.TransposeProduct | convert_lora_to_gguf.py:168-186 | exchanging the transposed factors transposes the product |
| LowRank.ScaleProduct | convert_lora_to_gguf.py:211-219 | scaling one factor scales the product |
| LowRank.ScaleRowsProduct | convert_lora_to_gguf.py:211-219 | scaling the rows of the left factor scales the rows of the product |
| LowRank.CatProduct | convert_lora_to_gguf.py:243-259 | stacking left factors over equal right factors stacks the products |
| TensorMeaning.ProductOfUnitRow | convert_lora_to_gguf.py:39-42 | a row of the left factor that selects one row of the right factor gives that row of the product |
| TensorMeaning.ProductIsAdditive | convert_lora_to_gguf.py:39-42 | the product is additive in the left factor |
| TensorMeaning.PermutedEntry | convert_lora_to_gguf.py:168-178 | dimension i of a permuted tensor is dimension dims[i] of the tensor, and every entry is found at its index so rearranged |
| TensorMeaning.RavelIsNumbering | convert_lora_to_gguf.py:136-160 | row-major numbers give each index its own number below the size |
| TensorMeaning.RavelIsOrdered | convert_lora_to_gguf.py:136-160 | of two indices the one that is smaller where they first differ has the smaller number |
| TensorMeaning.ReshapedEntry | convert_lora_to_gguf.py:136-160 | reshaping keeps every entry at its number |
| LowRankChains.StepProduct | convert_lora_to_gguf.py:58-219 | every supported operation on the factors is the operation on the product, and keeps the factors consistent |
| LowRankChains.ChainIsHomomorphic | convert_lora_to_gguf.py:58-259 | any chain of supported operations on the factors stands for the same chain on the product |
| LowRankChains.SplitProduct | convert_lora_to_gguf.py:187-206 | each part of a split stands for its part of the product, and the parts tile the dimension in order |
| LowRankChains.SplitEntries | convert_lora_to_gguf.py:187-206 | part number i has the product's shape with the size asked for, and its entries are the product's behind the sizes of the parts before it |
| LowRankChains.EvenSplit | convert_lora_to_gguf.py:187-206 | split by one size, every part but the last has that size, the last has what is left, and there are just as many parts as that takes, one for an empty dimension |
| LowRankChains.EvenSizesTotal | convert_lora_to_gguf.py:187-206 | parts of one size and a shorter last one add up to the dimension |
| LowRankChains.GetItemProduct | convert_lora_to_gguf.py:58-114 | indexing the factors with slices and single positions indexes the product |
| LowRankRequests.ResolvesExactly | convert_lora_to_gguf.py:136-150 | with one dimension left open, and no other one zero, the shape found is the one with those dimensions and the right number of elements |
| LowRankRequests.ReshapeToProduct | convert_lora_to_gguf.py:136-160 | a reshape that is granted, open dimensions included, reshapes the product to a shape with the given dimensions and as many elements |
| LowRankRequests.BareSliceIsRightExactly | convert_lora_to_gguf.py:39-77 | a slice without a tuple, with any bounds and step, is accepted; the product of its factors exists and is the slice of the product if and only if the tensor is a matrix, the slice takes in position 0 of one, or it is empty |
| LowRankRequests.SlicePicksExactly | convert_lora_to_gguf.py:58-77 | a slice takes every position from its first bound on, by its step, before its second bound, bounds counted from the end when negative and cut to the dimension |
| LowRankRequests.BatchedIsProduct | convert_lora_to_gguf.py:39-42 | the batched product, with the right factor repeated where it has one, is the product of the chains |
| LowRankRequests.SecondOfBatch | convert_lora_to_gguf.py:58-77 | of every batch of two or more, `[1:2]` is sliced wrong and position 1 refused |
| LowRankRequests.ItemIsGrantedExactly | convert_lora_to_gguf.py:77-114 | a tuple in range is granted if and only if it takes single positions of neither rows nor columns, or of both, with a leading dimension left and rank one; those last factors claim a dimension too many |
| LowRankRequests.BareAtExactly | convert_lora_to_gguf.py:58-71 | a bare position of a batched tensor is granted if and only if it is 0 or -1 and there is one, and is then that part of the product |
| GgmlFile.LittleEndianExactly | convert_llama_ggml_to_gguf.py:59-73 | a number is read from bytes if and only if the bytes are its little-endian writing |
| GgmlFile.WordsExactly | convert_llama_ggml_to_gguf.py:59-73 | words are read if and only if their bytes stand there in full |
| GgmlLayout.WordIs | convert_llama_ggml_to_gguf.py:59-73 | a word is the sum of its four bytes, the low one first |
| GgmlParts.HeaderExactly | convert_llama_ggml_to_gguf.py:145-166 | a header is accepted if and only if its magic and version stand there and are known |
| GgmlParts.HyperExactly | convert_llama_ggml_to_gguf.py:59-73 | the hyperparameters are read if and only if their words stand there with a known file type |
| GgmlLayout.MagicsSpelled | convert_llama_ggml_to_gguf.py:145-166 | the four magics, letter by letter, and the size of each header |
| GgmlLayout.HyperStands | convert_llama_ggml_to_gguf.py:59-73 | the seven hyperparameters stand in this order, four bytes each |
| GgmlLayout.FileTypes | convert_llama_ggml_to_gguf.py:168-179 | the file types there are, and those that each format and version may carry |
| GgmlParts.ItemsExactly | convert_llama_ggml_to_gguf.py:84-98 | a vocabulary inside the file is read if and only if its items, with or without scores, stand there one after the other |
| GgmlLayout.ItemStands | convert_llama_ggml_to_gguf.py:84-98 | an item is the length of its text, the text, and, with scores, four more bytes |
| GgmlTensors.TensorExactly | convert_llama_ggml_to_gguf.py:110-131 | a tensor inside the file is read if and only if its record stands there and its region has the right place and size |
| GgmlLayout.TensorStands | convert_llama_ggml_to_gguf.py:110-131 | a record is its numbers of dimensions and of name bytes, its type, its dimensions and its name, and its data start behind them or at the next multiple of 32 |
| GgmlLayout.BlockSizes | gguf-py/gguf/constants.py:4681-4716 | elements and bytes of a block for the oldest kinds, and which types there are |
| GgmlLayout.MoreBlockSizes | gguf-py/gguf/constants.py:4696-4703 | elements and bytes of a block for the kinds added later |
| GgmlLayout.MatrixSize | convert_llama_ggml_to_gguf.py:125-127 | a matrix of whole blocks takes the number of its blocks times the bytes of one |
| GgmlTensors.TensorsExactly | convert_llama_ggml_to_gguf.py:190-194 | a list read to the file's end is the list laid out in it |
| GgmlTensors.RegionsAreOrdered | convert_llama_ggml_to_gguf.py:110-131 | of any list that is read, regions are in order, aligned where padded, and inside the file, the last one if and only if reading stopped at the file's end |
| GgmlTensors.RegionsAreDisjoint | convert_llama_ggml_to_gguf.py:110-131 | no two regions overlap |
| GgmlTensors.StopsInsideExactlyWhenLaidOut | convert_llama_ggml_to_gguf.py:190-194 | of any list that is accepted, reading stops inside the file if and only if the list is laid out in it |
| GgmlTensors.CutListIsRead | convert_llama_ggml_to_gguf.py:110-131 | a list that is laid out is read with the same result from a file cut anywhere in its last region |
| GgmlTensors.OverrunExample | convert_llama_ggml_to_gguf.py:110-131 | sixteen bytes that are accepted with a region that ends at twenty |
| GgmlTensors.IndexFindsLast | convert_llama_ggml_to_gguf.py:193-194 | a name is indexed if and only if a tensor has it, and leads to the last such tensor |
| GgmlLoader.LoadsExactly | convert_llama_ggml_to_gguf.py:180-200 | loading to the file's end succeeds with a result if and only if the file is the layout of that result |
| GgmlLoader.FormatsDiffer | convert_llama_ggml_to_gguf.py:180-200 | in the oldest format no item has a score, in the others every one; in the newest each tensor is padded, in the others none |
| GgmlLoader.FfLengthExactly | convert_llama_ggml_to_gguf.py:53-57 | the feed-forward length is the second dimension of the last tensor of that name |
| GgmlLoader.CutFileIsLoaded | convert_llama_ggml_to_gguf.py:180-200 | a whole file cut in its last region is loaded with the same contents |
| GgmlLoader.WrittenIsLoaded | convert_llama_ggml_to_gguf.py:180-200 | a model written in the layout is loaded back, header, vocabulary, records, and each tensor's data in its region |
| GgmlModel.Hyperparameters.Load | convert_llama_ggml_to_gguf.py:59-73 | fills the fields as read, or reports why not |
| GgmlModel.Hyperparameters.SetNFf | convert_llama_ggml_to_gguf.py:53-57 | sets the feed-forward length from the tensor of that name, or reports that it is missing or not a matrix |
| GgmlModel.Vocab.Load | convert_llama_ggml_to_gguf.py:84-98 | the loop appends exactly the items read |
| GgmlModel.TensorRecord.Load | convert_llama_ggml_to_gguf.py:110-131 | fills the record as read, or reports why not |
| GgmlModel.LoadTensors | convert_llama_ggml_to_gguf.py:188-194 | the loop grows list and index side by side and ends with those specified |
| GgmlModel.Model.Load | convert_llama_ggml_to_gguf.py:180-200 | the object holds the contents of the file, or reports why not and, if it fails before its tensors are read, keeps its former contents |

## Left out

- The parser-combinator engine, grammar generation and schema conversion: node streams and parse trees are inputs here; that successive parses of a longer text give growing streams is the premise of the streaming theorems.
- Template rendering, the per-model initialisers and the template heuristics: wiring over libraries that are not part of this model.
- Option parsing, downloads, files, symlinks, processes, model contexts and floating-point embedding code.
- ToolCallMapper.Mapper.Map: a node that follows the current-tool pointer after an unnamed call was closed would read a dangling pointer in the source; such streams are excluded by a precondition that depends on the nodes alone.
- ToolCallMapper.Mapper.FromAst: messages have reasoning, content and calls only; role, content parts and tool names play no part in mapping or in deltas.
- JsonText.EscapeRoundTrip: characters are Unicode scalar values; surrogate pairs and invalid UTF-8 are not decoded.
- MessageSpans.FindMatches: positions and lengths are unbounded, so a region length that wraps around is not modelled; turning delimiters into tokens is left out.
- FilteredSession.ResultState.UpdateChatMsg: the parser and the id generator are parameters.
- PythonValue.NormalizedStringMeansTheSameExactly: characters named by `\N` and lone surrogates have no meaning in the model, so strings with them are outside the statement.
- TreeMapper.TreeStreamingIsSound: that a longer text's parse grows as stated is the premise, as for the other mapper.
- Glob.GlobMatch: characters compare by code point, where the source compares bytes, signed or not as the platform has it.
- Splitting.StringSplit: an empty separator, on which the source never ends, is excluded by precondition.
- Escapes.ProcessEscapes: the shortening of the string is the returned length.
- Base64.ValueIsExact: the two lookup tables are stated as character ranges.
- LowRankChains.GetItemProduct: type conversion and stacking are left out.
- LowRank.TakeProduct: right factors have leading dimensions of one, which is what the source's assertions admit.
- GgmlModel.TensorRecord.Load: a size of 2^63 or more, which the source lets wrap around, is reported as an error of its own.
- GgmlParts.ItemsExactly: a score is kept as its four bytes rather than as the number they denote.
- The conversion of a loaded model to the newer format.
