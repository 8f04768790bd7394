# X4CodeComplete core in Dafny

A model of the editor-independent logic of the X4CodeComplete VS Code
extensions, for the X4: Foundations game's XML scripts and Lua files. All of
it is written as pure functions over strings, sequences and insertion-ordered
maps.

- **Schema type registry** (`registry.dfy`, module `Registry`). This is
  `TypeEntry` and the `addType`, `addTypeLiteral` and `addProperty` upserts
  of `CompletionDict`.
- **Completion expansion** (`expansion.dfy`, module `Expansion`). This is
  `addItem`, `buildProperty` and `buildType`: the dotted labels offered for a
  type, bounded by depth and by the 1000-item budget.
- **Completion policy** (`completion.dfy`, module `Completion`).
  This is `findRelevantPortion`, which splits the line before the cursor into
  a previous token and a typed token, and `provideCompletionItems`.
- **Variable tracker** (`tracker.dfy`, module `Tracker`). This is
  `VariableTracker`: for each document, its dialect and, per variable kind,
  the locations of each variable name. Its operations are add, position
  lookup, rename and clear.
- **Document scan** (`scanner.dfy`, module `Scanner`):
  - dialect detection (`getDocumentScriptType`) with its per-document cache;
  - the `$name` matches of each attribute value;
  - the rule that decides whether a match is recorded as a normal variable,
    as a table key, or not at all;
  - `trackVariablesInDocument` as a fold of this decision over a stream of
    tag events.
- **Hover text** (`hover.dfy`, module `Hover`):
  - `generateKeywordText`, a walk along a dotted path through property lists;
  - `generateHoverWordText`, which groups, sorts and filters every schema
    entry that mentions the hovered word;
  - the loop that drops leading path segments until some text appears.
- **Localized texts** (`language.dfy`, module `LanguageText`, from the Lua
  extension):
  - the language id taken from a language file's name;
  - the fold of the `page`/`t`/text events into the `page:text` → language →
    text table;
  - `findLanguageText`, with its ordering, its one-language limit and its
    rendering.
- **FFI function table** (`ffi.dfy`, module `FfiInfo`). This is the merge
  rule at the end of `parseFfiBlock`: local declarations go under `C.<name>`,
  and they absorb a wiki description stored under the bare name.
- **Support modules**:
  - `OrderedMaps` (`ordered_map.dfy`): a JavaScript `Map` as a sequence of
    pairs. `set` keeps the position of a present key and appends a new one.
  - `JsString` (`js_string.dfy`): the string primitives whose edge cases
    matter. `lastIndexOf` clamps its start index, `substring` clamps and
    swaps its bounds, and `trim` uses the ECMAScript white space. Also here
    are `cleanStr`, `join` and the default `sort`.
  - `Optional` (`optional.dfy`).

Editor services are parameters:
- the XML tokenizer is a sequence of open-tag, text and close-tag events;
- `document.positionAt` is a function from offsets to positions;
- configuration values are arguments;
- URIs are strings.

## Model

| member | source | states |
|---|---|---|
| OrderedMaps.Set | extensions/scripts/src/extension.ts:66-71 | `Map.set` makes the key read the new value and no other key change; a present key keeps its place in the iteration order, a new key is appended |
| OrderedMaps.Remove | extensions/scripts/src/extension.ts:464-467 | `Map.delete` makes the key absent and leaves every other key's value and presence as it was |
| OrderedMaps.RemoveKeys | extensions/scripts/src/extension.ts:464-467 | after `Map.delete` the remaining keys keep their iteration order: the key list is the old one without the deleted key |
| OrderedMaps.SetInEffect | extensions/lua/src/extension.ts:138-141 | the get-or-create-then-set of an inner map stores the value at (key, language) and changes no other language under that key and no other key |
| JsString.LastIndexOf | extensions/scripts/src/extension.ts:48 | the result is the largest index holding the character at or before the start index clamped into the string, or -1 when no such index exists |
| JsString.Substring | extensions/scripts/src/extension.ts:61 | within bounds in order, `substring(i, j)` is the slice from `i` to `j`; otherwise its length is the distance between the clamped bounds and its characters are those from the smaller clamped bound on |
| JsString.SubstringSwap | extensions/scripts/src/extension.ts:61 | swapping the two bounds gives the same text |
| JsString.Trim | extensions/lua/src/extension.ts:140 | the result is the text between the leading and trailing runs of ECMAScript white space and line terminators |
| JsString.CleanStr | extensions/scripts/src/extension.ts:638-640 | the escaped text has no angle bracket, is never shorter, and text without angle brackets is returned unchanged |
| JsString.CleanStrAppend | extensions/scripts/src/extension.ts:1000 | escaping a whole text equals escaping its pieces, so escaping the assembled hover text escapes every line of it |
| JsString.UnescapeCleanStr | extensions/scripts/src/extension.ts:638-640 | on text without `&`, decoding `&lt;` and `&gt;` restores the original, so the escape loses nothing |
| JsString.CleanStrIdempotent | extensions/scripts/src/extension.ts:638-640 | escaping an escaped text changes nothing more |
| JsString.Sort | extensions/scripts/src/extension.ts:1107-1117 | the default `sort()` returns a lexicographically sorted permutation of its input |
| Registry.AddType | extensions/scripts/src/extension.ts:79-89 | the entry of `cleanStr(key)` is created at the end of the key order when missing; its supertype becomes the given one, even an absent one, except that `'datatype'` keeps the old one; its properties, its literals and every other entry stay as they were, and keys stay unique |
| Registry.AddTypeLiteral | extensions/scripts/src/extension.ts:91-100 | the literal set of `cleanStr(key)` gains exactly `cleanStr(val)` and stays free of duplicates; the supertype, the properties and every other entry are unchanged |
| Registry.AddProperty | extensions/scripts/src/extension.ts:102-110 | the entry of `cleanStr(key)` is created when missing; the property's type becomes the given one, or `''` (the default of `TypeEntry.addProperty`) when none is given; a redeclared property keeps its place, a new one goes last; other properties, the supertype, the literals and the other entries are unchanged |
| Registry.AddTypeLiteralIdempotent | extensions/scripts/src/extension.ts:91-100 | adding the same literal twice leaves the registry as adding it once |
| Expansion.AddItem | extensions/scripts/src/extension.ts:112-135 | a reserved label (`''`, `boolean`, `int`, `string`, `list`, `datatype`) is never added; an existing item is never replaced; a new item is appended with the given detail, or with the label as detail when none is given |
| Expansion.BuildProperty | extensions/scripts/src/extension.ts:136-176 | a reserved property or type name adds nothing; otherwise the label `prefix.cleanStr(name)` (the bare name at the root) is offered with detail `type.property`; items are only ever appended, and at depth 1 or more nothing but that label is added |
| Expansion.BuildProperties | extensions/scripts/src/extension.ts:208-210 | every non-reserved property of a non-reserved type gets its label, and every new label is one of the properties' labels |
| Expansion.BuildType | extensions/scripts/src/extension.ts:178-217 | a reserved, unregistered or too deep (`depth > 1`) type adds nothing; over the 1000-item budget at most the type's own name is added; within it every non-reserved property gets its label; below the root the type's own name is offered |
| Expansion.ExpandEntry | extensions/scripts/src/extension.ts:197-216 | for a registered type: its name is offered below the root, the expansion stops once more than 1000 items exist, and otherwise every property label appears |
| Expansion.LabelShape | extensions/scripts/src/extension.ts:155-160 | a property label is the bare property name, or ends with a dot followed by the escaped name |
| Expansion.LabelNotReserved | extensions/scripts/src/extension.ts:145-160 | a non-reserved property name never yields a reserved label, under any prefix |
| Expansion.BuildTypeSound | extensions/scripts/src/extension.ts:178-217 | expansion keeps every offered item sound: the label is not reserved, and the detail names a registered type (and is the label) or is `t.p` for a property `p` the registry declares on `t` |
| Expansion.BuildPropertySound | extensions/scripts/src/extension.ts:136-176 | offering a declared property and expanding its type keeps every item sound |
| Expansion.BuildPropertiesSound | extensions/scripts/src/extension.ts:208-210 | the loop over a type's declared properties keeps every item sound |
| Completion.DelimiterPos | extensions/scripts/src/extension.ts:48 | the position of the last `.`, or of the last `"` that is not the line's final character (a one-character line excepted), or -1 when there is none |
| Completion.LastDelimiter | extensions/scripts/src/extension.ts:48 | the two clamped `lastIndexOf` searches combined by `Math.max` find exactly that rightmost delimiter |
| Completion.PrevPosAsWritten | extensions/scripts/src/extension.ts:56 | for a delimiter after the first character, the search finds the last delimiter strictly before it; for a delimiter at index 0, the clamped start index finds that same delimiter |
| Completion.NewToken | extensions/scripts/src/extension.ts:52-55 | the typed token is the text after the delimiter, less one trailing `"` |
| Completion.SplitPrevToken | extensions/scripts/src/extension.ts:56-62 | the previous token is the text between the last delimiter before `pos` and `pos`; without such a delimiter, it is `''` when more than three characters follow `pos` and the whole head of the line otherwise |
| Completion.FindRelevantPortion | extensions/scripts/src/extension.ts:47-63 | null exactly when the line has no delimiter; otherwise the typed token and the previous token as above, except that a rightmost delimiter at index 0 yields that delimiter as the previous token |
| Completion.FindRelevantPortionCorrected | extensions/scripts/src/extension.ts:47-63 | the same split, with an empty previous token when the rightmost delimiter is at index 0; neither token contains a delimiter |
| Completion.FindRelevantPortionAgrees | extensions/scripts/src/extension.ts:47-63 | the two splits agree on every line whose rightmost delimiter is not its first character |
| Completion.FindRelevantPortionLeadingDelimiter | extensions/scripts/src/extension.ts:56-61 | on `.abcd` the code as written gives `[".", "abcd"]`, while the intended split is `["", "abcd"]` |
| Completion.LeadingDelimiterOnly | extensions/scripts/src/extension.ts:56-61 | on any line whose only delimiter is a leading `.`, the code as written reports `.` as the previous token and the corrected split reports `''` |
| Completion.Fallback | extensions/scripts/src/extension.ts:293-298 | every registered key that starts with the typed token is expanded at the root: within the budget, each non-reserved property of each such key is offered, and nothing outside their root expansions is offered |
| Completion.Answer | extensions/scripts/src/extension.ts:222-300 | once the line is split, `undefined` exactly for a non-script document or a non-empty previous token that names no registered type; a script document whose line has no delimiter gets the empty list; otherwise a list with unique labels |
| Completion.ProvideCompletionItems | extensions/scripts/src/extension.ts:222-300 | on the split as written, `undefined` exactly for a non-script document or a non-empty previous token that names no registered type; a script line without a delimiter gets the empty list; otherwise a list with unique labels |
| Completion.ProvideCompletionItemsCorrected | extensions/scripts/src/extension.ts:222-300 | the same answer on the corrected split, including the empty list for a script line without a delimiter |
| Completion.ProvideCompletionItemsAgrees | extensions/scripts/src/extension.ts:47-63 | the request as written and the corrected request agree on every line whose rightmost delimiter is not its first character |
| Completion.ProvideCompletionItemsLeadingDelimiter | extensions/scripts/src/extension.ts:56-61 | on a script line whose only delimiter is a leading `.`, the request as written answers `undefined` (unless `.` is a registered type) while the corrected request falls back to every type starting with the typed token |
| Completion.ProvideCompletionItemsAbcd | extensions/scripts/src/extension.ts:56-61 | the instance `.abcd`: `undefined` as written, the fallback on `abcd` when corrected |
| Completion.CompletionSound | extensions/scripts/src/extension.ts:222-300 | every offered item is sound: never a reserved label, and every detail names a registered type or a declared property |
| Completion.CompletionLabels | extensions/scripts/src/extension.ts:241-298 | after a registered previous token, only its members, their types and those types' properties are offered; after a typed token alone, only root expansions of matching types; a typed token shorter than 2 with no previous token gets an empty list |
| Completion.CompletionComplete | extensions/scripts/src/extension.ts:254-298 | nothing is missing: every non-reserved member of the previous token's type is offered; with no previous token and within the budget, every non-reserved property of every matching type is offered |
| Completion.MemberTypeOffered | extensions/scripts/src/extension.ts:254-259 | a top-level member `k` of type `v` brings, within the budget, `k`, `v` and every property `q` of `v` as `k.q`: one nested level |
| Completion.SupertypeOffered | extensions/scripts/src/extension.ts:211-216 | a root expansion of `A` with supertype `B` offers `B`, and every property `p` of `B` under the label `A.p` |
| Completion.RootExpansionLabels | extensions/scripts/src/extension.ts:178-217 | a root expansion offers only the type's property names, its supertype and the supertype's properties under the type's name |
| Completion.SupertypeExpansionLabels | extensions/scripts/src/extension.ts:197-216 | one level below the root, a type offers only its own name and its properties under the prefix, then stops at the depth bound |
| Tracker.NormalizeDollar | extensions/scripts/src/extension.ts:370 | one leading `$` is dropped from a variable name, so `$x` and `x` are stored under the same name |
| Tracker.LocationsDollar | extensions/scripts/src/extension.ts:391-392 | looking up `$x` finds exactly the locations of `x` |
| Tracker.AddVariable | extensions/scripts/src/extension.ts:369-388 | the location is appended to the variable's list; a new document is created with the given dialect, and an existing one keeps its dialect |
| Tracker.AddVariableElsewhere | extensions/scripts/src/extension.ts:369-388 | adding touches no other kind and no other document; a new document goes last in the iteration order |
| Tracker.AddVariableOtherDocuments | extensions/scripts/src/extension.ts:369-388 | other documents are unchanged, and deleting the document afterwards undoes the addition |
| Tracker.AddVariableLocations | extensions/scripts/src/extension.ts:369-388 | exactly one list grows: that of the added kind and normalized name |
| Tracker.AddVariableSameKind | extensions/scripts/src/extension.ts:384-387 | within the kind, no other name changes, and a new name goes last in the iteration order |
| Tracker.SearchKinds | extensions/scripts/src/extension.ts:424-437 | the nested loops return the first location, in kind-then-name-then-list order, whose range contains the position |
| Tracker.GetVariableAtPosition | extensions/scripts/src/extension.ts:410-440 | null exactly when the document is unknown or no recorded range contains the position; otherwise the first containing location with its name, kind, whole list and the document's dialect |
| Tracker.UpdateVariableName | extensions/scripts/src/extension.ts:442-462 | nothing happens when the document, kind or old name is absent; otherwise the new name holds the old name's list (replacing any list it had), and the old name is gone unless both names normalize alike |
| Tracker.UpdateVariableNameElsewhere | extensions/scripts/src/extension.ts:442-462 | a rename touches no other kind and no other document, and keeps the documents and their dialects |
| Tracker.UpdateVariableNameSameKind | extensions/scripts/src/extension.ts:457-461 | within the kind, no name other than the old and the new one changes |
| Tracker.RenameBack | extensions/scripts/src/extension.ts:442-462 | renaming a variable and renaming it back restores its locations and leaves the intermediate name empty |
| Tracker.ClearVariablesForDocument | extensions/scripts/src/extension.ts:464-467 | the document has no locations, no lookup hit and no dialect afterwards; other documents are unchanged |
| Tracker.ClearThenAdd | extensions/scripts/src/extension.ts:464-467 | a variable added after clearing its document is its only location, and the document takes the new dialect |
| Scanner.FirstDialect | extensions/scripts/src/extension.ts:491-496 | the name of the first open tag, at any depth, that is `aiscript` or `mdscript`; `''` exactly when no open tag has such a name |
| Scanner.DocumentScriptType | extensions/scripts/src/extension.ts:472-515 | a non-XML document gets `''`; a cached dialect wins without looking at the text; otherwise the first dialect tag decides, and only a non-empty result is cached |
| Scanner.DocumentScriptTypeValid | extensions/scripts/src/extension.ts:505-512 | detection yields a dialect or `''`, and the cache only ever holds dialects |
| Scanner.DialectSticks | extensions/scripts/src/extension.ts:479-486 | once detected, a dialect is returned again whatever the document's text has become |
| Scanner.MatchesFrom | extensions/scripts/src/extension.ts:21 | the `exec` loop of `/\$([a-zA-Z_][a-zA-Z0-9_]*)/g` reports greedy matches, left to right and not overlapping |
| Scanner.MatchesExact | extensions/scripts/src/extension.ts:551 | the reported matches start exactly at the `$` characters followed by a name start, so none is skipped |
| Scanner.LastMarkerPattern | extensions/scripts/src/extension.ts:566-569 | `/=[^%,]*$/` holds exactly when the last of `=`, `%` and `,` in the text is an `=` |
| Scanner.Classify | extensions/scripts/src/extension.ts:556-588 | a match at offset 0 is normal; otherwise it is recorded iff the preceding character is allowed in its mode; a recorded match is normal iff it does not follow a `.` (plain mode), or iff an open `=` precedes it in the attribute (table mode) |
| Scanner.DotOutsideTable | extensions/scripts/src/extension.ts:556-588 | outside table mode a `$` after `.` is recorded as a table key, not dropped |
| Scanner.MatchRecords | extensions/scripts/src/extension.ts:551-590 | the records are, in match order, one per match the classification keeps, with its kind and name and a range from its `$` to the end of its name; a skipped match contributes nothing |
| Scanner.ScanAttr | extensions/scripts/src/extension.ts:540-590 | the `name` of a `param` directly inside `params` is one normal variable spanning the whole value; any other value yields, in match order, the record of each `$name` match the classification keeps, each a valid name, and nothing for a skipped match |
| Scanner.ParamInsideParams | extensions/scripts/src/extension.ts:535-549 | the `name` of a `param` inside `params` is recorded whole, even when it holds no `$` |
| Scanner.AddAllLocations | extensions/scripts/src/extension.ts:549-588 | handing records to `addVariable` in order appends exactly their locations, in scan order |
| Scanner.TrackVariablesInDocument | extensions/scripts/src/extension.ts:517-522 | a document that is not a script leaves the tracker unchanged |
| Scanner.TrackReplaces | extensions/scripts/src/extension.ts:517-597 | after a scan the document's variables are exactly those of this scan, in scan order |
| Scanner.TrackElsewhere | extensions/scripts/src/extension.ts:517-597 | a scan touches no other document |
| Scanner.TrackIdempotent | extensions/scripts/src/extension.ts:524 | because the document is cleared first, scanning the same text twice is the same as scanning it once |
| Hover.FindEntry | extensions/scripts/src/extension.ts:1265 | `find` by name returns the first entry with that name, or nothing exactly when no entry has it |
| Hover.LastPartMatches | extensions/scripts/src/extension.ts:954-960 | the last segment selects the properties whose name contains it or contains `{$segment}` in any case |
| Hover.IntermediateMatches | extensions/scripts/src/extension.ts:961-976 | an intermediate segment selects the properties named exactly like it, or, when there are none, the so-named properties of the current properties' types |
| Hover.WriteLines | extensions/scripts/src/extension.ts:978-991 | the text gains exactly one line `- name.property: result` per selected property with a name and a result, in order; a line is written exactly when such a property exists; the next list searched is the type properties of the last such property with a type, else the current list |
| Hover.Step | extensions/scripts/src/extension.ts:945-998 | a segment that selects nothing leaves text and name alone and empties the list; otherwise the selected lines are appended and the segment joins the dotted name |
| Hover.WalkStuck | extensions/scripts/src/extension.ts:995-998 | once a segment selects nothing, the carried list is empty and no later segment changes anything |
| Hover.KeywordText | extensions/scripts/src/extension.ts:924-1002 | the text has no angle bracket, starts with the escaped keyword header, and is non-empty exactly when the walk wrote a property line |
| Hover.KeywordPathLine | extensions/scripts/src/extension.ts:924-1002 | on a path `keyword.a.b` where `a` names exactly one typed property of the keyword, every property of `a`'s type that contains `b` and has a result has its escaped line `- keyword.a.property: result` in the keyword text |
| Hover.KeywordAlone | extensions/scripts/src/extension.ts:945 | a path that names only the keyword gives no keyword text |
| Hover.UnmatchedSegment | extensions/scripts/src/extension.ts:963-998 | when the first segment selects nothing, there is no keyword text |
| Hover.Selected | extensions/scripts/src/extension.ts:1059-1063 | an entry named exactly like the word lists all of its properties; any other entry lists those whose name contains the word |
| Hover.AddAllLines | extensions/scripts/src/extension.ts:1038-1103 | each header gathers exactly the property lines of the mentioning entries of that name, in order |
| Hover.AddAllKeys | extensions/scripts/src/extension.ts:1038-1103 | a header exists exactly for the names of the entries that mention the word |
| Hover.Render | extensions/scripts/src/extension.ts:1105-1133 | the rendering is the concatenation of the paragraphs of exactly the headers with property lines, in the given order; it is empty exactly when no header has property lines |
| Hover.HoverWordText | extensions/scripts/src/extension.ts:1004-1141 | a non-empty text starts with the `Matches for '<word>':` line |
| Hover.HoverWordTextParagraphs | extensions/scripts/src/extension.ts:1105-1140 | the text lists one escaped paragraph per header with property lines, each header once, in ascending order, and nothing for a header without lines; `""` when there is none |
| Hover.HoverWordTextEmpty | extensions/scripts/src/extension.ts:1004-1141 | the text is empty exactly when no keyword or datatype that mentions the word has a listed property with a result |
| Hover.FirstPartSigils | extensions/scripts/src/extension.ts:1254 | a leading `$` or `@` is dropped, so `$x`, `@x` and `x` name the same entry |
| Hover.LookupEntry | extensions/scripts/src/extension.ts:1265-1268 | the keyword of that name is used unless it imports its properties; otherwise the datatype of that name is used, or nothing when there is no such datatype |
| Hover.AttemptHasHoverWord | extensions/scripts/src/extension.ts:1269-1274 | a pass is never empty when the hover-word text is not |
| Hover.Shorten | extensions/scripts/src/extension.ts:1264-1281 | the loop returns the text of the first suffix of the path whose pass produces text; every earlier suffix produced none, and an empty result means that even the last segment produced none |
| Hover.ComposeHover | extensions/scripts/src/extension.ts:1264-1281 | the same result for the real pass; when the hovered word alone produces text, the path is never shortened |
| LanguageText.MatchAtSucceeds | extensions/lua/src/extension.ts:117 | the match attempt at a `0001-` succeeds exactly when `/0001-[lL]?(\d+).xml/` matches there |
| LanguageText.MatchAtGreedy | extensions/lua/src/extension.ts:117 | a successful attempt captures the longest digit run that still lets the pattern match |
| LanguageText.FirstMatchNone | extensions/lua/src/extension.ts:117 | the search finds nothing exactly when the pattern matches at no position |
| LanguageText.FirstMatchSome | extensions/lua/src/extension.ts:117 | a found capture is that of the leftmost matching position |
| LanguageText.StripZeros | extensions/lua/src/extension.ts:118 | `replace(/^0+/, '')` removes exactly the leading zeros |
| LanguageText.LanguageId | extensions/lua/src/extension.ts:116-119 | any id other than `*` is a digit string without a leading zero |
| LanguageText.LanguageIdWildcard | extensions/lua/src/extension.ts:116-119 | the id is `*` exactly when the name matches the pattern nowhere, as for `0001.xml` |
| LanguageText.LanguageIdLeftmost | extensions/lua/src/extension.ts:116-119 | otherwise the id is the leftmost match's capture with its leading zeros dropped |
| LanguageText.LanguageIdAllZeros | extensions/lua/src/extension.ts:117-118 | a capture of zeros only, as in `0001-0.xml`, leaves the empty id: neither `*` nor digits `parseInt` can read |
| LanguageText.Step | extensions/lua/src/extension.ts:128-151 | `<page id>` sets the page; `<t id>` sets the text id only while a page is set; closing `t` or `page` clears its id; text inside both is stored trimmed under `page:text` for the file's language; nothing else changes the table |
| LanguageText.StepDropsText | extensions/lua/src/extension.ts:136-137 | text outside a text element of a page is dropped |
| LanguageText.FoldOtherLanguages | extensions/lua/src/extension.ts:121-151 | a file changes only the texts of its own language |
| LanguageText.ParseLanguageFileOtherLanguages | extensions/lua/src/extension.ts:121-151 | parsing a file leaves every other language's text under every key as it was |
| LanguageText.FoldKeepsKeys | extensions/lua/src/extension.ts:136-144 | the fold only adds and overwrites texts: no key disappears |
| LanguageText.FoldWithoutText | extensions/lua/src/extension.ts:128-151 | a file without text events leaves the table as it was |
| LanguageText.FoldValid | extensions/lua/src/extension.ts:136-144 | the table and each language map keep every key at most once |
| LanguageText.OrderLanguages | extensions/lua/src/extension.ts:173-179 | the output order is a permutation of the key's languages |
| LanguageText.OrderLanguagesSorted | extensions/lua/src/extension.ts:173-179 | the comparator accepts every pair in that order: the preferred language first, then ascending number with `*` as 0 |
| LanguageText.LimitLanguage | extensions/lua/src/extension.ts:180-186 | the shown language is the preferred one, else `*`, else `44`; it is present exactly when one of them is |
| LanguageText.EntriesAll | extensions/lua/src/extension.ts:187-191 | without the limit every language gives its `id: text` entry, in order |
| LanguageText.EntriesLimited | extensions/lua/src/extension.ts:187-191 | with the limit only entries of the shown language appear |
| LanguageText.AccumulateJoin | extensions/lua/src/extension.ts:189 | accumulating non-empty entries with a blank-line separator is joining them by `\n\n` |
| LanguageText.FindLanguageText | extensions/lua/src/extension.ts:165-194 | an absent `page:text` key gives `''` |
| LanguageText.FindLanguageTextLimited | extensions/lua/src/extension.ts:165-194 | with the output limited, the result is the single entry of the shown language, or `''` when the key has none of the preferred language, `*` and `44` |
| LanguageText.FindLanguageTextAll | extensions/lua/src/extension.ts:165-194 | without the limit, the result joins by blank lines the entries of every language of the key, each once, in the comparator's order |
| FfiInfo.Merge | extensions/lua/src/extension.ts:308-315 | a bare wiki name is removed and `C.<name>` gets the local description, a blank line, then the wiki text; otherwise `C.<name>` is set only when absent; no other name changes; afterwards `C.<name>` is present and the bare name absent |
| FfiInfo.MergeValid | extensions/lua/src/extension.ts:308-315 | the merge keeps every name at most once |
| FfiInfo.FirstDefinitionWins | extensions/lua/src/extension.ts:313-314 | once `C.<name>` is stored, no later declaration changes it |
| FfiInfo.MergeAllDeclared | extensions/lua/src/extension.ts:308-315 | after merging all declarations, each declared function is listed under `C.<name>` and none under its bare name |
| FfiInfo.NoBareName | extensions/lua/src/extension.ts:308-315 | merging never adds a bare name |

The Lua extension's language-id, language-file and lookup logic is repeated
in the scripts extension at `extension.ts:844-922`. The model follows the Lua
copy, which is the same code.

Three behaviours of the code worth noting:
- The 1000-item budget is checked only on entry to `buildType`, after the
  type's own name is added. A list can therefore grow past 1000.
- Supertype properties are offered under the subtype's name (`A.p`), not
  bare.
- Outside table mode, a `$` after a `.` is recorded as a table key, not
  dropped.

## Left out

- VS Code glue is not modelled: provider registration, `activate`, settings
  handling, and the `Position`/`Range`/`Location` classes. Positions come
  from a `positionAt` parameter. `Range.contains` is modelled with inclusive
  ends.
- File and schema loading is I/O and is not modelled: `readScriptProperties`,
  the `process*` schema readers, `loadLanguageFiles` (with its skipping of
  files outside the limited languages and its async pending counter) and the
  Lua file walk.
- SAX internals are not modelled: entity decoding, error recovery, and the
  `text.indexOf(attrValue, …)` lookup of an attribute's offset. The offset
  is an input of each attribute event. Events the parser delivers after
  recovering from an error are simply part of the input stream.
- `getDocumentScriptType` calls `parser.close()` after the first dialect
  tag. The model expresses this as "the first such tag decides". Dropping
  the cache entry on document close is editor glue.
- `LocationDict` and definition lookup are not modelled. They are regular
  expression searches over the raw schema file, and the definition provider
  is replaced later in the source.
- The Lua wiki fetch (https, JSDOM, Turndown) and the `globalState`
  persistence are network and storage I/O. The regular expression
  recognition of declarations in `parseFfiBlock` is text munging before the
  merge. The merge receives already parsed (name, description) pairs.
- Word-range extraction with `getWordRangeAtPosition`, which is an editor
  service, is not modelled. Neither is logging.
- The `{` branch of `provideCompletionItems` is not modelled. It cannot be
  reached: it needs a previous token that starts with `{`, but a non-empty
  previous token returns earlier.
- Hover.LastPartMatches: case-insensitive matching is modelled as ASCII case
  folding. The segment is inserted into the pattern literally, so regular
  expression metacharacters in a segment are not modelled.
- Hover.Selected, Hover.AddAllKeys: schema properties are taken to always
  carry a name. The source reads the name without a check and would throw on
  a property that lacks one; the model reads a missing name as `""`.
- Hover.HoverWordText: the source groups headers in a plain object, so a
  header named like an `Object.prototype` member (`constructor`, say)
  behaves differently there. The model treats every header alike.
- String lengths and offsets are counted in characters, where JavaScript
  counts UTF-16 code units. The two differ only outside the Basic
  Multilingual Plane. The same holds for the default sort order (JsString.LessEq,
  JsString.Sort): JavaScript compares code units, so a character outside the
  Basic Multilingual Plane (a surrogate pair, from `0xD800`) sorts before the
  characters from U+E000 to U+FFFF, where the model compares whole
  characters and sorts it after them.
- LanguageText.OrderLanguages: `Array.prototype.sort` with the source's
  comparator is modelled by the order it must produce: copies of the
  preferred language first, then the others stably by number. The proof
  shows this order is one the comparator accepts at every pair. It does not
  model how an engine reacts to a comparator that is not consistent.
- LanguageText.Num: `parseInt` of an id without leading digits is `NaN` in
  the source. It is 0 here. The loader does produce such an id: a file
  named `0001-0.xml` (all zeros) yields the empty id `""`
  (LanguageText.LanguageIdAllZeros), and a comparator that returns `NaN`
  leaves the engine's order unspecified. The model sorts that id as 0, so
  where it lands may differ from the source.
- LanguageText.TextKey: `page:text` keys are plain concatenation, as in the
  source. Ids that contain `:` can collide there too, and the model does not
  claim that keys are distinct.
- Tracker.UpdateVariableName: the contract does not state where the moved
  name lands in the iteration order. It lands last, through delete then
  set, which the body models.

## Findings

| source | as written | input that shows it | evidently intended | confidence | as-written member | corrected member |
|---|---|---|---|---|---|---|
| extensions/scripts/src/extension.ts:56-61 | the previous delimiter is searched with `lastIndexOf(c, pos - 1)`; when the rightmost delimiter is at index 0 the start index `-1` clamps to 0 and finds that same delimiter, so `substring(0 + 1, 0)` swaps to `text[0..1]` | the line `.abcd` splits into `[".", "abcd"]`; `.` names no type, so the completion request answers `undefined` | `["", "abcd"]`: no previous token, so completion falls back to the types whose name starts with `abcd` | medium, not executed: the code path is certain, the intent is inferred | Completion.FindRelevantPortion, Completion.FindRelevantPortionLeadingDelimiter, Completion.ProvideCompletionItems, Completion.ProvideCompletionItemsAbcd | Completion.FindRelevantPortionCorrected, Completion.ProvideCompletionItemsCorrected |
