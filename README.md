# SoSOL editorial helpers: a Dafny model

SoSOL (the Papyrological Editor) lets users edit papyrological texts and
their metadata. Editorial boards then vote on those edits. This project
models the small, deterministic routines that surround that workflow and
proves what they promise:

- **DCLP metadata helper** (`DclpEdition`, `DclpWork`, `DclpObject`):
  - the `biblScope/@unit` vocabulary and its membership test;
  - the edition ubertype;
  - the bibliography id of an edition link;
  - the authority options;
  - authority ids (tlg, stoa, phi, tm, cwkb) and a language, taken from lists of reference URLs;
  - the `Author`, `Title`, `ContentText`, `Extra` and `Work` objects that are built from the hash the DCLP meta identifier derives from EpiDoc;
  - the list of collections.
- **HGV meta identifier controller** (`HgvDates`, `HgvMetaIdentifiersController`): the pruning and completion of the date parameters of the HGV metadata form:
  - empty sub-dates and incomplete dates are dropped;
  - blank certainty relations are dropped;
  - each of `textDateWhen`, `textDateFrom` and `textDateTo` is fed from the right sub-date;
  - children are cleared;
  - notBefore and notAfter are cut to a year;
  - `packDate` flattens a sub-date.

  It also covers the flash notice and the rule that a blank comment records nothing.
- **Identifier controller** (`IdentifiersController`, `Comments`):
  - line-ending normalisation of submitted XML;
  - decoration of the commit history with a default message and a gitweb link;
  - the rule that a comment is recorded only after a successful write.
- **Workflow test** (`Tally`, `Routing`):
  - the vote-generation helper and its percent/count threshold loops, in exact arithmetic;
  - the routing outcomes the test asserts, stated over an abstract repository of publications and boards.

Ruby hashes become datatypes in the shape the code reads them, and optional
keys become `Option`. Objects whose constructors assign fields step by step
are classes. Loops over lists or hash keys are `for`/`while` loops, and each
such method is proved equal to a specification function. Those functions
carry the properties as `ensures` clauses and lemmas. Collaborators whose code
is not part of this model are function parameters:

- `HgvFuzzy.getChron`;
- `HgvFormat.formatDate`;
- `set_epidoc`;
- `set_xml_content` (its outcome: a parse error or success);
- `url_for`;
- `rand`.

## Model

| member | source | states |
|---|---|---|
| DclpEdition.ExtraOptionsAlphabetical | app/helpers/dclp_meta_identifier_helper.rb:77-102 | the unit vocabulary has 18 entries, in strictly increasing alphabetical order |
| DclpEdition.Listed | app/helpers/dclp_meta_identifier_helper.rb:107-111 | the early-return search over the option list succeeds iff the name is in the list |
| DclpEdition.ValidExtraOption | app/helpers/dclp_meta_identifier_helper.rb:105-114 | true iff the value is a Symbol or a String naming one of the 18 units; nil and any other value give false |
| DclpEdition.Ubertype | app/helpers/dclp_meta_identifier_helper.rb:163-166 | the ubertype is the subtype, except that type `reference` with subtype `principal` gives `reference` |
| DclpEdition.BiblioId | app/helpers/dclp_meta_identifier_helper.rb:171 | Some(d) exactly when the link is at least one character, then '/', then the digit run d up to its end; that d is the only such run; otherwise nil |
| DclpEdition.Extra.constructor | app/helpers/dclp_meta_identifier_helper.rb:119-125 | the five fields take the five arguments |
| DclpEdition.Edition.SetAtom | app/helpers/dclp_meta_identifier_helper.rb:195-201 | the setter changes the named atom and no other field |
| DclpEdition.Edition.PopulateAtomFromHash | app/helpers/dclp_meta_identifier_helper.rb:209-213 | each of the eight atoms takes the hash entry of its name, or nil; biblioId, extras and preview are unchanged |
| DclpEdition.Edition.InitializeFromEdition | app/helpers/dclp_meta_identifier_helper.rb:158-185 | starting from all-nil fields, a nested edition hash gives: atoms from its attributes, ubertype from type and subtype, and link/biblioId, title, level/type and extras from its children |
| DclpEdition.Edition.ApplyChildren | app/helpers/dclp_meta_identifier_helper.rb:168-185 | a link child sets link and biblioId; a title child sets title, and level/type when it has attributes; extra children are appended, one Extra per child, in order, to the list that `initialize` has just emptied; every other field is unchanged |
| DclpEdition.Edition.constructor | app/helpers/dclp_meta_identifier_helper.rb:144-191 | no hash leaves every field nil; a flat hash fills only the atoms; a nested hash gives the state above |
| DclpEdition.NewExtraList | app/helpers/dclp_meta_identifier_helper.rb:180-184 | one Extra per extra child, in order, each built from that child's value and unit/corresp/from/to attributes |
| DclpWork.WithoutDropped | app/helpers/dclp_meta_identifier_helper.rb:232-236 | deleting `tm` or `phi` from the five authorities leaves the other four in their original order |
| DclpWork.AuthorityOptions | app/helpers/dclp_meta_identifier_helper.rb:223-239 | `:author` drops tm, `:title` drops phi, any other mode keeps all five in order; the argument-less call, which raises, gives None |
| Text.IdAfter | app/helpers/dclp_meta_identifier_helper.rb:269-283 | for a prefix ending in a non-digit, Some(d) exactly when the string ends with prefix+d and d is a non-empty digit run; that d is unique |
| DclpWork.LastBoundedRun | app/helpers/dclp_meta_identifier_helper.rb:285 | finds a digit run bounded by non-digits whose start is the rightmost of all such runs |
| DclpWork.OccursFrom | app/helpers/dclp_meta_identifier_helper.rb:285 | true iff the word occurs at or after the index |
| DclpWork.HasCwkbAnchorMonotone | app/helpers/dclp_meta_identifier_helper.rb:285 | once `cwkb.org/author` or `cwkb.org/work` occurs in a prefix, it occurs in every longer prefix |
| DclpWork.CwkbId | app/helpers/dclp_meta_identifier_helper.rb:284-287 | the id is the bounded digit run that starts rightmost, when an anchor lies before it; nil iff no bounded run has an anchor before it |
| DclpWork.FirstIdFrom | app/helpers/dclp_meta_identifier_helper.rb:266-291 | the id of the first URL from the index on that yields one; None iff none does |
| DclpWork.GetIdFromUrl | app/helpers/dclp_meta_identifier_helper.rb:263-294 | nil for a nil list or an unknown authority; otherwise the id from the first URL, in list order, that matches the authority's shape; nil iff no URL matches |
| DclpWork.LanguageWordFrom | app/helpers/dclp_meta_identifier_helper.rb:300 | the leftmost occurrence of `greek` or `latin` at or after the index, with no earlier one; None iff there is none |
| DclpWork.LanguageFrom | app/helpers/dclp_meta_identifier_helper.rb:299-308 | the language of the first URL holding either word; None iff no URL does |
| DclpWork.GetLanguageFromUrl | app/helpers/dclp_meta_identifier_helper.rb:296-311 | `la` or `grc`, after the leftmost word of the first URL that holds `latin` or `greek`; nil for a nil list or when no URL holds either word |
| DclpWork.Author.constructor | app/helpers/dclp_meta_identifier_helper.rb:316-329 | the name and refs are set; each authority id is the child's value, or else the id found in the refs; the authority map pairs phi/tlg/stoa/cwkb with them; the language comes from the attribute, or else from the refs; the certainty is the certainty child |
| DclpWork.Title.constructor | app/helpers/dclp_meta_identifier_helper.rb:339-356 | as for Author with tm in place of phi; date, when, from and to come from the date child; all four are nil without a date child |
| DclpWork.CountIn | app/helpers/dclp_meta_identifier_helper.rb:374-391 | a bucket's count is zero exactly when no keyword has its class |
| DclpWork.ValuesInCounts | app/helpers/dclp_meta_identifier_helper.rb:374-391 | a bucket holds one value per keyword of its class |
| DclpWork.BucketsPartition | app/helpers/dclp_meta_identifier_helper.rb:374-391 | every keyword lands in exactly one of culture, religion, genre, overview and keywords |
| DclpWork.LastOverviewIsLast | app/helpers/dclp_meta_identifier_helper.rb:384-385 | the overview is the value of the last `overview` keyword |
| DclpWork.NoOverviewGivesEmpty | app/helpers/dclp_meta_identifier_helper.rb:371 | with no `overview` keyword the overview stays `''` |
| DclpWork.ContentText.constructor | app/helpers/dclp_meta_identifier_helper.rb:366-393 | culture, religion, genre (class `description`) and keywords (no class, or any other class) hold their keywords' values in document order; the overview is the last overview value, or `''` |
| DclpWork.Extra.constructor | app/helpers/dclp_meta_identifier_helper.rb:404-424 | without a hash every field is nil; otherwise value, then unit/from/to/corresp from the attributes, and the certainty child |
| DclpWork.IsAlternative | app/helpers/dclp_meta_identifier_helper.rb:434-441 | true iff some non-nil work has a non-empty `exclude` attribute |
| DclpWork.Work.SetAtom | app/helpers/dclp_meta_identifier_helper.rb:430-432 | the setter changes the named atom and no other field |
| DclpWork.Work.PopulateAtomFromHash | app/helpers/dclp_meta_identifier_helper.rb:486-490 | subtype, corresp, id and exclude take the hash's entries, or nil; the other fields are unchanged |
| DclpWork.Work.constructor | app/helpers/dclp_meta_identifier_helper.rb:447-478 | atoms come from the attributes; `alternative` is true iff the id is a non-empty string, and otherwise nil; an author/title exists iff there is such a child, built from it; one Extra per extra child, in order |
| DclpWork.Work.ApplyChildren | app/helpers/dclp_meta_identifier_helper.rb:464-476 | author, title and extras are built from the children that are present; atoms and `alternative` are unchanged |
| DclpWork.NewExtraList | app/helpers/dclp_meta_identifier_helper.rb:471-475 | one fresh Extra per extra hash, in order |
| DclpObject.Collection.constructor | app/helpers/dclp_meta_identifier_helper.rb:505-516 | the list is the collection, when there is one, followed by the collection list; an item is listed iff it is one of these |
| HgvDates.PrunedChildren | app/controllers/hgv_meta_identifiers_controller.rb:35-44 | an onDate/fromDate/toDate is removed iff its century, year, month and day are all empty; the other children are kept unchanged |
| HgvDates.PrunedTextDates | app/controllers/hgv_meta_identifiers_controller.rb:33-51 | a text date survives iff, after pruning, it has an onDate or both a fromDate and a toDate; every survivor is complete |
| HgvDates.PruneIdempotent | app/controllers/hgv_meta_identifiers_controller.rb:33-51 | pruning the pruned dates again changes nothing |
| HgvDates.KeptCertainties | app/controllers/hgv_meta_identifiers_controller.rb:58-62 | a certainty is removed iff its `relation` attribute is present and empty; the others are untouched |
| HgvDates.PruneMentionedDate | app/controllers/hgv_meta_identifiers_controller.rb:56-64 | a mentioned date without the certainty path is untouched; otherwise only its certainties are pruned |
| HgvDates.PruneMentionedDateIdempotent | app/controllers/hgv_meta_identifiers_controller.rb:56-64 | pruning a mentioned date twice equals pruning it once |
| HgvDates.Task | app/controllers/hgv_meta_identifiers_controller.rb:78-99 | textDateWhen is fed iff there is an onDate with empty offset; textDateFrom by fromDate, else by onDate unless its offset is `before`, else by nothing; textDateTo likewise with toDate and `after` |
| HgvDates.WhenImpliesBounds | app/controllers/hgv_meta_identifiers_controller.rb:78-99 | a date that feeds textDateWhen also feeds textDateFrom and textDateTo |
| HgvDates.CompleteHasBounds | app/controllers/hgv_meta_identifiers_controller.rb:85-99 | with both fromDate and toDate, they feed textDateFrom and textDateTo |
| HgvDates.FillSlotsWrites | app/controllers/hgv_meta_identifiers_controller.rb:101-118 | each slot attribute takes getChron of its sub-date, or nil; the other attributes are unchanged |
| HgvDates.TruncateYear | app/controllers/hgv_meta_identifiers_controller.rb:134-136 | a string of ten or more characters loses exactly its last six; a shorter string or nil is unchanged |
| HgvDates.TruncateYears | app/controllers/hgv_meta_identifiers_controller.rb:133-137 | exactly the listed attributes are truncated; the key set is unchanged |
| HgvDates.TruncateYearOfFullDate | app/controllers/hgv_meta_identifiers_controller.rb:133-137 | a ten-character full date is cut to its first four characters |
| HgvDates.CompletedDate | app/controllers/hgv_meta_identifiers_controller.rb:74-138 | children are empty afterwards whatever the flag; without the flag the text and the attribute keys stay; under the flag a complete date gets a text |
| HgvDates.CompletedAttributes | app/controllers/hgv_meta_identifiers_controller.rb:101-137 | under the flag: textDateWhen is the slot value; textDateFrom/To are the slot values cut to a year; other attributes are kept |
| HgvDates.UnflaggedAttributes | app/controllers/hgv_meta_identifiers_controller.rb:131-137 | without the flag only textDateFrom and textDateTo change, each cut to a year |
| HgvDates.PruneThenCompleteGivesText | app/controllers/hgv_meta_identifiers_controller.rb:46-49 | after pruning and completion under the flag, every remaining date has a text and no children |
| HgvDates.PackedDate | app/controllers/hgv_meta_identifiers_controller.rb:142-153 | keys are the children's plus the attributes'; attributes win; an `offset` child with a value becomes that value; another child with value and attributes becomes its attributes plus `value`; any other child stays as it is |
| HgvMetaIdentifiersController.PruneSubDatesOf | app/controllers/hgv_meta_identifiers_controller.rb:35-44 | the loop over onDate/fromDate/toDate deletes exactly the empty sub-dates |
| HgvMetaIdentifiersController.PruneTextDates | app/controllers/hgv_meta_identifiers_controller.rb:33-51 | the loop over the text dates yields the pruned text dates |
| HgvMetaIdentifiersController.PruneCertainties | app/controllers/hgv_meta_identifiers_controller.rb:58-62 | the loop deletes exactly the blank-relation certainties |
| HgvMetaIdentifiersController.PrunedMentionedDates | app/controllers/hgv_meta_identifiers_controller.rb:55-65 | every mentioned date is kept, with its certainties pruned |
| HgvMetaIdentifiersController.PruneMentionedDates | app/controllers/hgv_meta_identifiers_controller.rb:56-64 | the loop over the mentioned dates yields the pruned mentioned dates |
| HgvMetaIdentifiersController.CompletedTextDates | app/controllers/hgv_meta_identifiers_controller.rb:74-138 | every text date is kept, completed, with empty children |
| HgvMetaIdentifiersController.FillSlotAttributes | app/controllers/hgv_meta_identifiers_controller.rb:101-118 | the loop over the three slots writes the slot values |
| HgvMetaIdentifiersController.FormatDate | app/controllers/hgv_meta_identifiers_controller.rb:122-129 | the text is formatDate of the packed onDate, else of the packed fromDate and toDate, else unchanged |
| HgvMetaIdentifiersController.TruncateYearAttributes | app/controllers/hgv_meta_identifiers_controller.rb:133-137 | the loop cuts textDateFrom and textDateTo to a year |
| HgvMetaIdentifiersController.CompleteTextDate | app/controllers/hgv_meta_identifiers_controller.rb:74-138 | one text date is completed as specified |
| HgvMetaIdentifiersController.CompleteTextDates | app/controllers/hgv_meta_identifiers_controller.rb:74-138 | the loop over the text dates completes each one |
| HgvMetaIdentifiersController.PackDate | app/controllers/hgv_meta_identifiers_controller.rb:142-153 | the merge-then-rewrite loop yields the packed date |
| HgvMetaIdentifiersController.FlashNotice | app/controllers/hgv_meta_identifiers_controller.rb:155-160 | the notice starts with `File updated.` and adds a link to the publication iff its status is `new` or `editing` |
| HgvMetaIdentifiersController.HgvUpdate.constructor | app/controllers/hgv_meta_identifiers_controller.rb:13-16 | the request state holds the given form, flag and comment log, with no notice yet |
| HgvMetaIdentifiersController.HgvUpdate.PruneParams | app/controllers/hgv_meta_identifiers_controller.rb:28-69 | with a form and the flag, the text dates are pruned; with a form, the mentioned dates lose their blank-relation certainties whatever the flag; nothing else changes; the flag path demands only the texts the emptiness test reads |
| HgvMetaIdentifiersController.HgvUpdate.ComplementParams | app/controllers/hgv_meta_identifiers_controller.rb:71-140 | with a form that has text dates, each one is completed, with the flag deciding slots and text; nothing else changes |
| HgvMetaIdentifiersController.HgvUpdate.Update | app/controllers/hgv_meta_identifiers_controller.rb:5-24 | with a form: under the flag the text dates become the completed pruned dates, each with a text and no children; without the flag they become the completed dates (children cleared, notBefore/notAfter cut to a year); the mentioned dates lose their blank-relation certainties; without a form nothing is touched; the notice is set; set_epidoc receives these new dates and the comment is saved under the commit id it returns, iff the comment is non-blank |
| Comments.CommitComment | app/controllers/hgv_meta_identifiers_controller.rb:162-167 | no comment iff the text is nil or only whitespace; otherwise exactly one, with reason `commit` and the given commit id, user, identifier and publication |
| Text.StripEmptyIffBlank | app/controllers/hgv_meta_identifiers_controller.rb:163 | `strip` gives a non-empty string iff the text has a character other than NUL, tab, LF, VT, FF, CR or space |
| Comments.CommentLog.constructor | app/controllers/hgv_meta_identifiers_controller.rb:164 | the comments table starts empty |
| Comments.CommentLog.Save | app/controllers/hgv_meta_identifiers_controller.rb:165 | saving appends exactly that comment |
| Comments.CommentLog.SaveCommitComment | app/controllers/hgv_meta_identifiers_controller.rb:162-167 | the table grows by the edit's comment when there is one, and is unchanged otherwise |
| IdentifiersController.NormalizeLineEndings | app/controllers/identifiers_controller.rb:45 | no CR is left, and the text never grows |
| IdentifiersController.NormalizeKeepsCrFree | app/controllers/identifiers_controller.rb:45 | text without CR is unchanged |
| IdentifiersController.NormalizeIdempotent | app/controllers/identifiers_controller.rb:45 | normalising twice equals normalising once |
| IdentifiersController.NormalizeKeepsText | app/controllers/identifiers_controller.rb:45 | with every CR and LF removed, the text before and after is the same: no other character is added, dropped or moved |
| IdentifiersController.NormalizeCrFreeHead | app/controllers/identifiers_controller.rb:45 | a head without CR is kept as it is, and normalisation goes on after it |
| IdentifiersController.CrLfBecomesLf | app/controllers/identifiers_controller.rb:45 | each CRLF pair becomes exactly one LF |
| IdentifiersController.LoneCrBecomesLf | app/controllers/identifiers_controller.rb:45 | each CR not followed by LF becomes exactly one LF |
| IdentifiersController.RepositoryPath | app/controllers/identifiers_controller.rb:23 | a leading repository root becomes `db/git`; any other path is unchanged |
| IdentifiersController.CommitUrl | app/controllers/identifiers_controller.rb:22-25 | the link is the gitweb base URL and the mapped path, followed directly by `;a=commitdiff;h=` and the commit id (prefix, suffix and the sum of their lengths) |
| IdentifiersController.CommitUrlDeterminesId | app/controllers/identifiers_controller.rb:22-25 | two commits in one repository have the same link only if they have the same id |
| IdentifiersController.Decorate | app/controllers/identifiers_controller.rb:18-26 | an empty message becomes `(no commit message)`; a non-empty one is kept; the id stays; the link is set |
| IdentifiersController.DecorateIdempotent | app/controllers/identifiers_controller.rb:18-26 | decorating twice equals decorating once |
| IdentifiersController.History | app/controllers/identifiers_controller.rb:15-28 | every commit in the array is decorated in place; length and order are unchanged |
| IdentifiersController.UpdateXml | app/controllers/identifiers_controller.rb:42-59 | the normalised XML is written; on a parse error the error is flashed and no comment is saved; on success the notice is set and a non-blank comment is saved with hash `todo` under the origin identifier and publication |
| Tally.DecreeFor | test/functional/workflow_test.rb:54 | the decree found is the first of the board's decrees for the action; None iff no decree is for it |
| Tally.CeilingNat | test/functional/workflow_test.rb:57 | the least natural number at or above the real |
| Tally.VotesNeeded | test/functional/workflow_test.rb:56-66 | the count reaches the decree's threshold, and no smaller count does |
| Tally.LeastIsUnique | test/functional/workflow_test.rb:56-66 | the first count the decree accepts is the one the helper stops at |
| Tally.Choice | test/functional/workflow_test.rb:49-50 | the choice is an element of the decree's choice array; nil iff the array is empty |
| Tally.GenerateVote | test/functional/workflow_test.rb:44-51 | the n-th vote is cast by the n-th member with a listed choice |
| Tally.GenerateBoardVotesForAction | test/functional/workflow_test.rb:53-67 | None iff the board has no decree for the action; otherwise exactly as many votes as the decree needs, the i-th by the i-th member |
| Tally.ThreeMembersAtHalfNeedTwo | test/functional/workflow_test.rb:105-106 | a 50% percent decree on three members stops after two votes |
| Tally.CountTriggerOneNeedsOne | test/functional/workflow_test.rb:22-26 | a count decree with trigger 1.0 stops after one vote |
| Tally.PercentWithinMembers | test/functional/workflow_test.rb:57-58 | a percent trigger of at most 100 never needs more votes than there are members |
| Tally.DistinctVoters | test/functional/workflow_test.rb:58 | among distinct members, no member casts two of the votes |
| Routing.ChildrenOfIsParentOf | test/functional/workflow_test.rb:90 | the children of a publication are exactly those whose parent it is |
| Routing.PublicationsOfIsOwnedBy | test/functional/workflow_test.rb:90 | a board's publications are exactly those it owns |
| Routing.Submit | test/functional/workflow_test.rb:85 | a submission only appends publications |
| Routing.AppendOne | test/functional/workflow_test.rb:88-97 | a new publication is added at the end of its parent's children and its owner's publications |
| Routing.SubmitMakesChildren | test/functional/workflow_test.rb:88-92 | after submission, the publication's new children are exactly the copies, in creation order |
| Routing.SubmitSkipsOtherBoards | test/functional/workflow_test.rb:94-97 | a board not submitted to gains nothing |
| Routing.SubmitOneCopyPerBoard | test/functional/workflow_test.rb:88-97 | each board gains one copy iff it reviews one of the publication's kinds |
| Routing.DdbOnlySubmission | test/functional/workflow_test.rb:81-97 | a DDB-only publication's children are exactly the DDbDP board's publications: one copy whose parent is the publication and whose owner is that board; the HGV boards get none |
| Routing.Approve | test/functional/workflow_test.rb:99-114 | when an approve decree's threshold is reached, the publications are kept and one is appended: status `finalizing`, owned by the finalizer, child of the copy; otherwise nothing changes |
| Routing.ApprovalMakesFinalizer | test/functional/workflow_test.rb:109-114 | after the two approve votes on the three-member board, the board's copy has exactly one child, `finalizing` and owned by a user |

## Left out

- I18n labels of every option list: only the symbol half of each pair is modelled.
- `typeOptions`, `subtypeOptions`, `ubertypeOptions1/2` and `languageOptions` are not part of this model.
- The `to_s` methods: they render strings for debugging and state nothing the model needs.
- The regex engines' own details:
  - `\Z` tolerating one trailing newline;
  - `.` not matching a newline;
  - `^` in the repository-root substitution matching after any newline;
  - the repository root being interpolated unescaped into that pattern.

  The regexes are modelled as explicit prefix, suffix and digit-run functions over strings without newlines.
- DclpWork.CwkbId: a URL containing a newline is not treated specially, because `.` in the Ruby pattern does not cross lines.
- Inputs on which the Ruby code raises are excluded by the types or by a `requires`:
  - the `attributes` or `children` hash of an author or title is missing;
  - a title's `date` child has no attributes;
  - an edition `extra` has no `attributes` hash or no `unit`;
  - an edition `link` child has no text (`nil.match`): the link child is typed as its text;
  - the `textDate` hash is missing under the date-master flag;
  - under the flag, an `onDate`, `fromDate` or `toDate` lacks a text the emptiness test reads (century, then year, month and day while the ones before are empty);
  - an `onDate` without an offset text;
  - under the flag, a sub-date that feeds a slot lacks its century, year, month or day element, or the attributes of the first three.
- The `date` parameter hash is taken as present whenever a form is sent, and `master` stands for `params[:date][:master]`. Ruby reads that key without checking the hash (in `prune_params` and in the `complement_params` loop), so a form without a `date` hash raises NoMethodError there; the model reads a missing flag as the flag being off.
- The hashes of a text date and of a sub-date are taken as present (`children` and `attributes`). Ruby does not read a `fromDate`'s or `toDate`'s children without the flag, so a form that leaves those out is accepted there but cannot be stated in this model.
- Two raising calls are modelled as results (None):
  - `authorityOptions` called without an argument raises NameError, because its default `null` is undefined;
  - `generate_board_votes_for_action` without a decree for the action raises NoMethodError (`nil.tally_method`).
- The HGV form is reduced to what the controller reads and writes:
  - text dates;
  - the certainty path of mentioned dates;
  - the date-master flag.

  The other form fields go to `set_epidoc` untouched and are not modelled.
- `HgvFuzzy.getChron`, `HgvFormat.formatDate`, `set_epidoc`, `set_xml_content`, `get_commits`, `url_for` and `decree.get_choice_array` are not part of this model. Each appears only as a parameter or as given input.
- ActiveRecord finds, `redirect_to`/`polymorphic_path`, `before_filter :authorize`, `edit`, `editxml` and `create` are left out. A saved comment is an append to the comment log.
- Tally.GenerateBoardVotesForAction:
  - the loop tests use exact real arithmetic rather than Ruby floats;
  - a zero-member board gives zero votes in both, since `0.0/0` is NaN and the loop does not run;
  - `rand` is a parameter, and the draw for vote i is reduced modulo the number of choices;
  - the votes are returned, not saved.
- Routing.Submit: the Publication, Board and Decree models are not part of this model. Submission, branching and tallying are stated only through the outcomes the workflow test asserts. The repository is abstract: publications by index, with owner, status, parent and identifier kinds. A copy keeps its original's status, and statuses other than `finalizing` are not modelled.
- Routing.Approve: the finalizer is chosen by a parameter, and the decree's choices are not consulted.
- The test assertion at test/functional/workflow_test.rb:106 counts every vote (`collect … length`), so it is stated as the number of votes cast.
- Concurrency of simultaneous voting.
