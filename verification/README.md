# Verified model of the FreeIAM LDAP client

FreeIAM is an LDAP client library. This project models the parts of it that carry invariants, and
proves what they promise:

- **The filter language** (RFC 4515, section 3). `Text`, `Escaping`, `FilterTree`, `FilterGrammar`
  (concrete derivations and the transformer), `FilterParser` (a deterministic parser), `FilterNormal`,
  `FilterRoundTrip`, `FilterPretty`, `FilterLosses`, `FilterLanguage`, `FilterChoice`, `FilterRefusals`. The
  grammar is ambiguous; statements about the transformer hold for every derivation; the parser makes
  one choice among them, accepts the whole language, and any other choice gives the same filter up to
  whitespace and two kinds of tests.
- **The meaning of filters and their rewriting** (three-valued logic, section 4.5.1.7 of RFC 4511;
  empty AND and OR, section 2 of RFC 4526). `FilterMeaning`, `ExprNodes` (mutable expression objects),
  `Callbacks`, `FilterTrees`, `FilterOrder`, `FilterWalk`, `FilterWalkRun` (the explicit-stack
  walk), `FilterRewrite`, `FilterSimplified`.
- **Distinguished names** as lists of parsed RDNs. `Ordering`, `DistinguishedNames`, `RdnRewrite`.
- **Client loops against servers**, each server a small state machine. `Directory` (recursive delete),
  `ClientControls`, `VlvPaging`, `CookiePaging`, `Scripts` and `Session` (retry, reconnect and replay),
  `Transaction`.
- **Asynchronous delivery** as interleaved steps. `AsyncDelivery`.

Network results, failures, cookies, context identifiers and the order of one-level listings are
parameters, quantified over in every statement. `str.lower` is a function parameter.

## What the code does that its documentation does not say

Where code and documentation differ, the model follows the code.

- `Comparison.__eq__` ignores the matching rule and the class, so the documented deduplication can
  drop a comparison that means something else (`FilterMeaning.DedupeExact`, `DedupeLosesRule`).
- Whitespace before an operator sign is printed after it; a lone `*` with whitespace and a value
  padded twice on one side lose characters (`FilterGrammar.Lossless` has the exact condition;
  `FilterLosses.SignLosesOrder`, `LoneStarLosesSpace` and `PaddedTwiceLosesOne` are accepted inputs).
- `(a:dn:=b)` can be read with the dn flag or with a matching rule called dn; the grammar does not say
  which (`FilterChoice.ChoicesDiffer`).
- A simplification in PRE order detaches a group that it unwraps; what the callbacks of its children
  then replace does not reach the filter (`Callbacks.SimplifyThenSwap`).
- A paginated search whose page size divides the number of results asks for one page behind the end;
  it ends normally only on a server that answers this with an empty page (`VlvPaging.SearchPaginated`).
  A page size below one is not checked; it asks for a negative number of entries, which the server refuses.
- A paged search appends its control to the caller's object, which can then not be used for another
  one (`CookiePaging.SearchPaged`), and an empty page ends it even if more pages follow.
- A transaction discards the server controls that were set before, even with `set_controls=False`, and
  a refused commit can look like a normal end (`Transaction.Client.Bracket`). If setting the control
  fails before the body, and only then, a later replay of the option log names the transaction
  (`Transaction.ReplayNames`). A body that sets the server controls itself leaves the transaction
  (`Transaction.OptionEscapes`).
- An entry whose RDN has two assertions of one type with different normalised values is renamed by
  every modification list, even an empty one (`RdnRewrite.RepeatedTypeIsAlwaysRenamed`).
- Cancelling a task at the await leaves its reader registered (`AsyncDelivery.CancelLosesResponse`).

## Model

| member | source | states |
|---|---|---|
| Escaping.EscapeRoundTrip | src/freeiam/ldap/filter.py:586-597 | Unescaping undoes escaping on every string in SPECIAL mode, and in the two other modes exactly on the ASCII strings |
| Escaping.UnescapeEscape | src/freeiam/ldap/filter.py:592-597 | The same for each mode: exactly when every character the mode escapes is ASCII |
| Escaping.EscapeKeeps | src/freeiam/ldap/filter.py:586-589 | SPECIAL mode leaves a text alone exactly if none of the five special characters is in it, RESTRICTED exactly if all lie between 0 and z without the backslash, ALL only the empty text |
| Escaping.EscapeIsValue | src/freeiam/ldap/filter.py:71 | Escaped text of any string in any mode is in the language of the grammar's `_value`, so it cannot end a comparison |
| Escaping.ValueLanguage | src/freeiam/ldap/filter.py:71 | Reading atoms from left to right accepts exactly what the repeated alternatives of the expression match |
| Escaping.EscapeValueRoundTrip | src/freeiam/ldap/filter.py:229-237 | The escaping chosen for a decoded value is undone exactly when the value has no outer whitespace or is ASCII |
| Escaping.EscapeValueTight | src/freeiam/ldap/filter.py:229-237 | The escaped form never starts or ends with whitespace that a parser would strip |
| FilterGrammar.LosslessCmp | src/freeiam/ldap/filter.py:696-739 | A transformed comparison prints as the derived text exactly when no value is padded twice and no lone star has whitespace; otherwise it gets shorter |
| FilterGrammar.LosslessItem | src/freeiam/ldap/filter.py:679-694 | The same for bracketed items and operators, with the whitespace in front of the sign as the only other loss of order |
| FilterGrammar.Lossless | src/freeiam/ldap/filter.py:38-75 | For every derivation the transformer accepts, printing the tree gives the derived text if and only if the derivation is free of these three cases |
| FilterLosses.SignLosesOrder | src/freeiam/ldap/filter.py:45 | `( &(a=b))` is accepted and printed as `(& (a=b))` |
| FilterLosses.LoneStarLosesSpace | src/freeiam/ldap/filter.py:724-730 | `(a= *)` is accepted as a substring and printed as the shorter `(a=*)` |
| FilterLosses.PaddedTwiceLosesOne | src/freeiam/ldap/filter.py:706-709 | A value with a space in front and a no-break space inside loses the latter |
| FilterParser.ParseSound | src/freeiam/ldap/filter.py:461-475 | The parser only accepts texts the grammar derives, and what it returns is a well-formed derivation of exactly that text |
| FilterNormal.ParseComplete | src/freeiam/ldap/filter.py:38-75 | The text of every normal derivation, which has each piece of whitespace in one fixed slot, is parsed to that derivation; so there is one per text |
| FilterLanguage.StartForm | src/freeiam/ldap/filter.py:38-75 | Every derivation without whitespace around the outermost brackets has a normal one with the same text, from which the transformer makes the same filter up to whitespace and two kinds of tests, if it accepts the derivation |
| FilterLanguage.ParsesLanguage | src/freeiam/ldap/filter.py:38-75 | The parser accepts a text if and only if the grammar derives it without whitespace around the outermost brackets |
| FilterLanguage.AcceptsLanguage | src/freeiam/ldap/filter.py:461-475 | Parser and transformer accept a text if and only if the transformer accepts some derivation of it |
| FilterRefusals.AttrLanguage | src/freeiam/ldap/filter.py:66-67 | Which texts are attributes, character by character |
| FilterRefusals.RefusedExactly | src/freeiam/ldap/filter.py:700-761 | The transformer refuses a comparison exactly if its text has two neighbouring stars, its value is not empty and all of it is stripped, or it is `:dn:=` without attribute and flag |
| FilterRefusals.FilterTexts | src/freeiam/ldap/filter.py:461-475 | A text is a filter exactly if it is empty, one space, or has a derivation with no refused comparison, no whitespace around the operand of a NOT and none around the outermost brackets |
| FilterRefusals.TwoStarsRefused | src/freeiam/ldap/filter.py:735-738 | No text with two neighbouring stars anywhere is a filter |
| FilterChoice.AnyChoice | src/freeiam/ldap/filter.py:461-475 | Whichever derivation of a text is taken, if the transformer accepts it the tree is the one made of the parser's derivation, but for optional whitespace, starless substring against equality, and a rule named dn against the dn flag |
| FilterChoice.SettledAlike | src/freeiam/ldap/filter.py:262-268 | Comparisons of two such trees are equal for Python, have the same raw value, and differ in kind in these two ways only |
| FilterChoice.ChoiceMeaning | src/freeiam/ldap/filter.py:461-475 | On every entry that does not tell those kinds of tests apart, all accepted derivations of a text have the same outcome |
| FilterChoice.ChoicesDiffer | src/freeiam/ldap/filter.py:58-60 | The choice is real: one text with two accepted derivations that ask different tests |
| FilterRoundTrip.ParseLayout | src/freeiam/ldap/filter.py:461-475 | Any layout of a well-formed tree, compact or indented, is parsed to the same tree up to whitespace tokens |
| FilterRoundTrip.ParsePrint | src/freeiam/ldap/filter.py:401-404 | Parsing the printed form of a well-formed tree without optional whitespace gives the tree with its values escaped; all decoded values come back exactly when none has outer whitespace together with a non-ASCII character |
| FilterRoundTrip.PrintParse | src/freeiam/ldap/filter.py:645-648 | `str` of a parsed filter is its text exactly when its derivation loses nothing, or there is no tree, as for the empty text and a single space |
| FilterPretty.PrettyFaithful | src/freeiam/ldap/filter.py:489-510 | The indented form at any level, read behind its pad and without whitespace tokens, is the tree that is printed, a bare comparison gaining brackets |
| FilterPretty.PrettyAtLevel | src/freeiam/ldap/filter.py:489-510 | Every comparison and operator starts with two spaces per level and a bracket |
| FilterPretty.ChildrenAtLevel | src/freeiam/ldap/filter.py:489-510 | So do the visible children of an operator, one text for each |
| FilterMeaning.ParsePrintMeaning | src/freeiam/ldap/filter.py:401-404 | The text sent to a server evaluates, on every entry, as the tree does |
| FilterMeaning.TruthTables | src/freeiam/ldap/filter.py:411-429 | AND, OR and NOT as three-valued tables |
| FilterMeaning.KeptExactly | docs/examples/filter.py:170-173 | Of different things exactly those comparisons go that have one behind them with the same attribute, decoded value and printed sign |
| FilterMeaning.AgreesWithKept | docs/examples/filter.py:170-173 | Every comparison has one that is left, in its place or behind it, with the same three |
| FilterMeaning.KeptInOrder | docs/examples/filter.py:170-173 | What is left stands in its old order |
| FilterMeaning.KeepDistinct | docs/examples/filter.py:170-173 | After the deduplication no two comparisons of a group are equal |
| FilterMeaning.PlainDedupe | docs/examples/filter.py:170-173 | Without extensible matches and substrings the deduplication keeps the outcome on every entry |
| FilterMeaning.DedupeMeaning | docs/examples/filter.py:170-173 | Keeping the last of equal comparisons keeps the three-valued outcome where equal comparisons have equal outcomes |
| FilterMeaning.DedupeExact | src/freeiam/ldap/filter.py:262-268 | For a group of comparisons the deduplication is right on all entries if and only if every test is still asked afterwards |
| FilterMeaning.DedupeLosesRule | src/freeiam/ldap/filter.py:262-268 | Two comparisons that differ in the matching rule only: one is lost, and an entry exists where the outcome changes |
| FilterMeaning.UnwrapMeaning | docs/examples/filter.py:175-179 | An AND or OR of one outcome is that outcome |
| ExprNodes.InsertThenRemove | src/freeiam/ldap/filter.py:372-388 | An inserted object stands at its index, from the front or from the end, and removing it again gives the old list |
| ExprNodes.ExprNode.Replace | src/freeiam/ldap/filter.py:376-381 | The first place that holds the very object gets the replacement, all else is untouched; an absent object is an error without effect |
| ExprNodes.ExprNode.Remove | src/freeiam/ldap/filter.py:383-388 | The first place that holds the very object disappears; an absent object is an error without effect |
| Callbacks.DropDuplicates | docs/examples/filter.py:170-173 | Counting and removing one comparison at a time, in place, leaves exactly the last of equal comparisons, in order |
| Callbacks.Simplify | docs/examples/filter.py:170-179 | Deduplicates the group and puts an only expression in its place in the parent, unless it is a NOT; it raises exactly if such a group is no longer in its parent |
| Callbacks.SimplifyThenSwap | src/freeiam/ldap/filter.py:376-381 | In PRE order, a swap in a simplified group reaches the filter if and only if the group was not unwrapped |
| FilterOrder.OperatorsOrdered | src/freeiam/ldap/filter.py:626-640 | In the traversal each AND, OR and NOT that is reached has one call under PRE, before all calls below it, one under POST, behind all of them, both under BOTH, and none without a callback |
| FilterOrder.CallsKnown | src/freeiam/ldap/filter.py:622-640 | There are no other calls: each is of an operator that is reached or of a comparison of the tree, and only if there is a callback for it |
| FilterTrees.CallsOnce | src/freeiam/ldap/filter.py:609-640 | In the recursive traversal no object is called twice, all are called that should be, and everything below an operator comes before its closing call |
| FilterTrees.TargetsWithin | src/freeiam/ldap/filter.py:609-640 | The objects called below a visited part are exactly the called objects of the whole that lie in it |
| FilterTrees.CalledInOrder | src/freeiam/ldap/filter.py:634-635 | Comparisons in one list are called from left to right |
| FilterTrees.LayoutExact | src/freeiam/ldap/filter.py:368-388 | After the callbacks of a list, whatever the indices: the children that did not remove themselves are left in their old order, and exactly the added objects are among them |
| FilterWalk.VisitComparison | src/freeiam/ldap/filter.py:368-388 | One call of the comparison callback, which may append to, insert into and remove from the list that is walked, and replace, never raises, and brings a partly rewritten graph to the next intermediate state |
| FilterWalkRun.VisitOperator | docs/examples/filter.py:170-179 | One call of the simplifying callback does the same for a finished group, and never raises |
| FilterWalkRun.Walk | src/freeiam/ldap/filter.py:609-640 | The explicit-stack walk ends, calls the callbacks in exactly the order of the recursive traversal of the original tree, so removed objects still and new ones never, calls the operator callback as each strategy says, and leaves the recursive rewriting of that tree on the heap: swaps, additions and removals as in tests/test_ldap_filter.py:717-737, and simplification |
| FilterRewrite.ReadOnlyResult | src/freeiam/ldap/filter.py:609-640 | Callbacks that change nothing leave the tree as it was |
| FilterRewrite.KeptDistinct | docs/examples/filter.py:170-173 | No two comparisons of a deduplicated group of objects are equal |
| FilterRewrite.CloseMeaning | docs/examples/filter.py:170-179 | Deduplicating and unwrapping one group keeps its outcome on every entry on which equal comparisons agree |
| FilterRewrite.RewriteMeaning | src/freeiam/ldap/filter.py:609-640 | If nothing is added or removed and each swapped comparison keeps its outcome, the whole rewritten tree does, swaps, deduplication and unwrapping at every level included |
| FilterRewrite.SimplifyPlain | docs/examples/filter.py:154-179 | Simplifying alone keeps the outcome of every filter without extensible matches and substrings on every entry |
| FilterSimplified.ResultSimplified | docs/examples/filter.py:154-179 | After one simplifying walk no operator has two equal comparisons, and no AND or OR a single expression, whatever the comparison callbacks add, remove and replace |
| FilterSimplified.SimplifiedIsFixed | docs/examples/filter.py:154-179 | Such a filter is left alone by another walk |
| FilterSimplified.SimplifyTwice | docs/examples/filter.py:154-179 | Simplifying twice is simplifying once |
| FilterSimplified.WalkKeepsMeaning | src/freeiam/ldap/filter.py:609-640 | What such a walk leaves on the heap has the outcome the filter had |
| Ordering.SortSorts | src/freeiam/ldap/dn.py:325-333 | Sorting gives a sorted list with the same multiset |
| Ordering.SortedIsCanonical | src/freeiam/ldap/dn.py:325-333 | Two sorted lists with the same multiset are the same list |
| DistinguishedNames.EqualExact | src/freeiam/ldap/dn.py:320-333 | Two names are equal if and only if they have as many RDNs and each pair has the same multiset of case-normalised assertions |
| DistinguishedNames.EqualAssertions | src/freeiam/ldap/dn.py:325-333 | Names of one assertion are equal exactly if lowered types and flags agree, and values do as they are or, for the seven listed types, lowered |
| DistinguishedNames.EqualSlices | src/freeiam/ldap/dn.py:285-289 | Equal names have equal slices |
| DistinguishedNames.EndsWithExact | src/freeiam/ldap/dn.py:214-228 | `endswith` holds exactly for the suffixes, up to equality, the empty name and longer names included |
| DistinguishedNames.StartsWithExact | src/freeiam/ldap/dn.py:230-242 | `startswith` holds exactly for the prefixes |
| DistinguishedNames.EndsWithOrder | src/freeiam/ldap/dn.py:214-228 | Ancestry is reflexive, transitive and antisymmetric up to equality |
| DistinguishedNames.AncestryRespectsEqual | src/freeiam/ldap/dn.py:214-242 | Equal names have the same ancestors, descendants and prefixes |
| DistinguishedNames.Walk | src/freeiam/ldap/dn.py:244-259 | The loop yields all suffixes from the base's length, but at least one, to the whole name; it fails exactly when the name does not end with the base |
| DistinguishedNames.WalkClimbs | src/freeiam/ldap/dn.py:244-259 | That list starts at the base, ends at the name, goes one RDN at a time and misses no suffix |
| DistinguishedNames.WalkRespectsEqual | src/freeiam/ldap/dn.py:244-259 | Walks of equal names are equal element by element |
| DistinguishedNames.ClimbIsSuffix | src/freeiam/ldap/dn.py:200-212 | Repeated `get_parent` gives the suffixes one after the other, and then nothing |
| DistinguishedNames.ClimbArrives | src/freeiam/ldap/dn.py:200-212 | Repeated `get_parent` reaches the base if and only if the name ends with it and it is not empty (or both are), in as many steps as the lengths differ |
| DistinguishedNames.NameObject.Hash | src/freeiam/ldap/dn.py:325-333 | The hash is computed once and stays that of the name |
| RdnRewrite.RebuiltValues | src/freeiam/ldap/sync_connection.py:750-756 | Each assertion of the new RDN keeps its type and has the first value of the last modification that writes it, or else the RDN's last own value |
| RdnRewrite.NewValueExactly | src/freeiam/ldap/sync_connection.py:751-756 | On the list itself: the value, or the first of the values, of the last modification of the attribute that is no deletion and has a value; the old one if there is none |
| RdnRewrite.ComputeExact | src/freeiam/ldap/sync_connection.py:749-766 | For every RDN: parent and length are kept, the result equals the rebuilt RDN over the parent, and it fails exactly for an empty name or a changed RDN without a parent |
| RdnRewrite.ComputeValues | src/freeiam/ldap/sync_connection.py:749-766 | With distinct types and a parent: which value every attribute has in the end |
| RdnRewrite.ComputeTwice | src/freeiam/ldap/sync_connection.py:749-766 | Applying the modifications to the new name gives the new name |
| RdnRewrite.RebuiltEqual | src/freeiam/ldap/sync_connection.py:764-765 | An RDN equals the rebuilt one only assertion by assertion |
| RdnRewrite.UnchangedExact | src/freeiam/ldap/sync_connection.py:749-766 | For every modification list: the name is left alone if and only if each assertion equals the plain one with its new value |
| RdnRewrite.UntouchedExact | src/freeiam/ldap/sync_connection.py:749-766 | Modifications of other attributes leave the name alone if and only if the RDN has only plain strings and assertions of one type agree |
| RdnRewrite.RepeatedTypeIsAlwaysRenamed | src/freeiam/ldap/sync_connection.py:749-766 | With two assertions of one type that differ, every modification list changes the name or fails |
| RdnRewrite.DistinctIsSettled | src/freeiam/ldap/sync_connection.py:749-766 | Distinct types and plain strings meet that condition |
| RdnRewrite.RepeatedTypeIsRenamed | src/freeiam/ldap/sync_connection.py:749-766 | A name with two values of one type is renamed by the empty modification list |
| Directory.Server.DeleteRecursive | src/freeiam/ldap/sync_connection.py:811-818 | Ends; succeeds exactly if the entry exists and nothing below it is protected; removes bottom-up, sends the controls with requests for the entry itself only, and keeps all parents |
| Directory.RemovesExactly | src/freeiam/ldap/sync_connection.py:811-818 | A successful run leaves exactly the entries outside the subtree, after one request per leaf and two per inner entry |
| Directory.FailsExactly | src/freeiam/ldap/sync_connection.py:811-818 | A run fails if and only if a protected entry is met; no entry outside and no protected entry is ever lost |
| Directory.ParentsAlwaysKept | src/freeiam/ldap/sync_connection.py:811-818 | Every intermediate state of the directory, also of a run that fails half-way, has all parents |
| ClientControls.SetServer | src/freeiam/ldap/_wrapper.py:49-54 | The given object, or a new one, gets the list without controls of that type and with the control at its end |
| ClientControls.AppendServer | src/freeiam/ldap/_wrapper.py:42-47 | The list object of the given object, or of a new one, is extended in place by the control |
| ClientControls.FindFirst | src/freeiam/ldap/_wrapper.py:29-34 | The response control found is the first of its type; none is found exactly when there is none |
| ClientControls.SetIsOne | src/freeiam/ldap/_wrapper.py:49-54 | Afterwards the control is the only one of its type, and the others are as before, in order |
| VlvPaging.SearchPaginated | src/freeiam/ldap/sync_connection.py:585-646 | The whole list is yielded once, in order and numbered; each request has one sort and one list-view control for the next page in the last context and the caller's other controls; there are n/size+1 requests; it fails exactly if the size divides a positive n and the server treats an offset behind the end as an error; a size below one yields nothing and ends with the server's error |
| VlvPaging.NumberingExact | src/freeiam/ldap/_wrapper.py:84-106 | Position, page and entry determine each other, the last entry is on the last page, and `is_last_in_page` marks the ends of full pages |
| VlvPaging.AtEnd | src/freeiam/ldap/sync_connection.py:618-619 | Where the loop can stop, the page count and the remainder are determined |
| CookiePaging.SearchPaged | src/freeiam/ldap/sync_connection.py:648-685 | The pages up to the first empty one are yielded, numbered; the k-th request carries the k-th cookie; without support by the server all is one page; it fails exactly if the caller's controls already ask for pages; the caller's own list asks for pages afterwards |
| CookiePaging.SendPrepared | src/freeiam/ldap/sync_connection.py:661-664 | What travels: the caller's controls, one page control with the cookie of that moment, at most one sort control |
| CookiePaging.CompleteExactly | src/freeiam/ldap/sync_connection.py:666-685 | The caller sees the whole list in order if and only if only empty pages follow an empty page |
| CookiePaging.NumberedAt | src/freeiam/ldap/sync_connection.py:667-673 | Entry e of page p comes after all earlier pages and e entries, and is numbered so |
| CookiePaging.EvenPages | tests/test_ldap_connection_sync.py:466-487 | With full pages, page and entry follow from the position as for list views |
| Session.ReplayIsLastWrite | src/freeiam/ldap/sync_connection.py:382-384 | Replaying the option log is reading it with the last write winning |
| Session.ReplayAbsorbs | src/freeiam/ldap/sync_connection.py:382-384 | Replaying onto a connection that already replayed a part of the log gives the same options |
| Session.Session.SetOption | src/freeiam/ldap/sync_connection.py:156-161 | The write is logged first; after a failure the connection agrees with its log if and only if the option had that value already |
| Scripts.InARowExactly | src/freeiam/ldap/sync_connection.py:310-317 | Calls in a row go through exactly if all succeed, and else give the first error |
| Scripts.Recovers | src/freeiam/ldap/sync_connection.py:999-1016 | After one of the four connection errors, a reconnect that goes through and a second run end the call well |
| Scripts.EndsAtOnce | src/freeiam/ldap/sync_connection.py:1011 | Any other error of the operation ends the call at that attempt |
| Scripts.GivesUp | src/freeiam/ldap/sync_connection.py:1011-1014 | If nothing but connection errors comes back, all attempts are used and the last error comes out |
| Session.Session.Reconnect | src/freeiam/ldap/sync_connection.py:310-317 | Succeeds exactly if its connect call, one call for each logged option and the bind, if one is recorded, all succeed, and else gives the first error; after success options and identity are what log and recorded bind say; the log never grows |
| Session.Session.Retry | src/freeiam/ldap/sync_connection.py:999-1016 | Over all scripts of results, its end, its attempts, its calls and how often the operation runs are a function of the script (`Scripts.Tried`): at most the allowed attempts; every rerun finds options and identity rebuilt; only the four connection errors are retried; one of them followed by successes is recovered from; any other error ends it; with no attempt allowed a RuntimeError |
| Session.Session.Authenticate | src/freeiam/ldap/sync_connection.py:353-358 | The credentials are recorded whatever happens; after success they are the identity, through retries too; success and failure follow the script |
| Transaction.Client.Send | src/freeiam/ldap/sync_connection.py:999-1016 | Every request is retried over new connections; with its connection the server forgets the open transactions, and all attempts carry the controls in force or those of the log |
| Transaction.Client.Act | src/freeiam/ldap/sync_connection.py:900-902 | One action of a body, an update, an option or a reconnect, ends as the script and the open transactions say, keeps in force what the requests name unless it sets server controls or gives up a connection, and an accepted update lands there |
| Transaction.Client.Body | src/freeiam/ldap/sync_connection.py:900-902 | A body ends with its own exception or the first error that is not caught; if it is undisturbed in this sense, no update reaches the store under the transaction's control, and the pending ones are the accepted ones unless a reconnect lost them; if no call fails, every update and option is carried out |
| Transaction.Client.Enter | src/freeiam/ldap/sync_connection.py:894-899 | The control is in force now and after any reconnect |
| Transaction.Client.Exit | src/freeiam/ldap/sync_connection.py:902-911 | Controls are reset and logged, then one end request is made, every attempt of it without controls; which errors come out |
| Transaction.Client.Bracket | src/freeiam/ldap/sync_connection.py:893-911 | Over all bodies and failures: at most one end request, a commit exactly after a normal end, an abort otherwise; with the control set and an undisturbed body all accepted updates are applied or none; if no call fails and the server does not refuse, a body of updates and other options ends normally, is applied as a whole and committed once, or is run, aborted once and not applied if it raises; the exact cases of a normal return; a replay of the log names a transaction if and only if the bracket failed on setting its control |
| Transaction.ReplayNames | src/freeiam/ldap/sync_connection.py:156-161 | What replaying the log of a bracket onto any connection names: the transaction if its control was logged but could not be set, else nothing, and after an entered bracket no server control is left |
| Transaction.OptionEscapes | src/freeiam/ldap/sync_connection.py:893-911 | A body that sets server controls itself: its update is applied although the transaction is aborted |
| Transaction.NormalEndIsAll | src/freeiam/ldap/sync_connection.py:893-911 | A body that ends normally without catching errors had all of its updates accepted |
| AsyncDelivery.Poll.Ready | src/freeiam/ldap/connection.py:1105-1118 | The reader callback, with its unguarded completion, is the Ready step |
| AsyncDelivery.Poll.Round | src/freeiam/ldap/connection.py:1078-1083 | From the top of the loop to the await is the Next step |
| AsyncDelivery.Poll.Awaken | src/freeiam/ldap/connection.py:1085-1103 | From the await to the yield or a handler is the Resume step |
| AsyncDelivery.Poll.Expire | src/freeiam/ldap/connection.py:1120-1123 | A timeout with its handler is the Expire step |
| AsyncDelivery.Safe | src/freeiam/ldap/connection.py:1075-1140 | In every run: a reader is registered exactly while its future is pending, no future is completed twice, responses are delivered once and in order; the one exception is a cancelled await |
| AsyncDelivery.OverMeansUnregistered | src/freeiam/ldap/connection.py:1134-1140 | After an end, an error or a timeout no reader is left, unless the task was cancelled at the await |
| AsyncDelivery.OrphanedExactly | src/freeiam/ldap/connection.py:1090-1092 | The exception is a fact of the run: some event cancels the task while it awaits a pending future |
| AsyncDelivery.ReaderLeftExactly | src/freeiam/ldap/connection.py:1134-1140 | A run that is over leaves a reader registered if and only if it has such an event |
| AsyncDelivery.DeliveredInOrder | src/freeiam/ldap/connection.py:1086-1098 | The consumer has a prefix of what arrived |
| AsyncDelivery.ErrorsAreRead | src/freeiam/ldap/connection.py:1086-1093 | An error that reaches the consumer is a timeout, a cancellation, an invalid descriptor, or the very error of the packet that was read last |
| AsyncDelivery.EndedIsComplete | src/freeiam/ldap/connection.py:1087-1103 | A normal end comes after every response up to the first that is no search entry, or at the library's own end |
| AsyncDelivery.InternalEnds | src/freeiam/ldap/connection.py:1075-1118 | The client's own steps come to an end |
| AsyncDelivery.NeverStuck | src/freeiam/ldap/connection.py:1075-1118 | When they do, the operation is over, or everything that arrived is delivered and the reader is registered |
| AsyncDelivery.CancelLosesResponse | src/freeiam/ldap/connection.py:1090-1092 | Cancelling at the await leaves the reader, and the next response is lost |

## Left out

- Lark's Earley parser itself: which derivation it picks is not modelled, and `FilterChoice.AnyChoice` says how little depends on it; `strict` mode; `Filter.from_format` and the other constructors of filters.
- FilterParser.ParseSound: the parser is one deterministic choice among the derivations, so this does not say which derivation Lark picks; `FilterChoice.AnyChoice` compares it with every other choice.
- Escaping.EscapeRoundTrip: python-ldap's `escape_filter_chars` is not part of the repository; it is modelled as tests/test_ldap_filter.py:517-540 pin it, on characters up to U+10FFFF without surrogates.
- Digits outside ASCII, which `\d` in the grammar's `oid` also accepts.
- FilterWalkRun.Walk: the callbacks edit the comparison, append to, insert into and remove from its own list and call `parent.replace`, or simplify; a callback that edits another list, which can change the calls, or raises an exception of its own, which ends the walk, is not modelled; a simplification is modelled for POST order only, since in PRE and BOTH order it detaches groups that are still walked (`Callbacks.SimplifyThenSwap` has the exact effect for one group); objects brought in are new apart from the replaced comparison.
- Callbacks.Simplify: without the objectClass pruning of docs/examples/filter.py:155-168, which also runs inside OR, where it changes the meaning.
- FilterMeaning.ParsePrintMeaning: a comparison is an arbitrary test on an entry, determined by its class, attribute, rule and value; matching itself is the server's.
- DistinguishedNames.EqualExact: equality of hashes is equality of what is hashed, that is, no collisions; parsing and printing names and the Samba fix-up are python-ldap's.
- RdnRewrite.ComputeExact: `dn2str` followed by `str2dn` is the identity on RDNs, and values decode as UTF-8.
- Directory.Server.DeleteRecursive: one naming context, no other client, and a one-level search that returns all children at once.
- VlvPaging.SearchPaginated: rounding of the page count in floating point; a server that sends no list-view response; a consumer that stops early or changes the controls in between; `unique` and `sizelimit`.
- CookiePaging.SearchPaged: search references, which end an iterative search early.
- Session.Session.Retry: a negative number of attempts, with which the loop has no bound; delays; an operation that fails is taken not to have happened on the server, and the library's own reconnect loop is one call.
- Transaction.Client.Bracket: one connection; a body that sets server controls or goes on after a connection was given up is covered by everything but the two statements about the store, which do not hold for it (`Transaction.OptionEscapes`).
- AsyncDelivery.Safe: one operation on the connection (the source notes that a second one replaces its reader), a descriptor that is readable whenever the library has something unread, and a timeout that runs together with its handler.
- `get_schema` caching, `compare_dn`, SASL binds, TLS, pickling, `Attributes`, the error table and the encoders of controls and extended operations.
