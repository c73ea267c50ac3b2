# Pods: the Pod object and the file upload field's options

This project models two parts of the Pods WordPress plugin in Dafny.

The first is the `PodsObject_Pod` class. It holds one Pod definition (the `_object` array).
- `init` resolves the definition from a name, an id or a parent. It follows an ordered chain of candidates:
  - a stored `_pods_pod` post;
  - the core objects `user`, `media` and `comment`;
  - a registered post type or taxonomy;
  - a synthetic `comment_` type.
- The chosen candidate is merged over fixed defaults, its labels are defaulted, and a stored Pod's meta overrides are applied.
- `save`, `duplicate` and `delete` forward to the Pods API and update or reload the object.
- `table_info` memoises the API's table description.
- `object_fields` fills the object fields once.

The second is the option handling of the file upload field's template:
- the number of files the field accepts;
- turning the current value into a list;
- the five file type presets;
- scrubbing stray separators from custom lists;
- collapsing custom extensions into the MIME major types that the uploader is told to accept.

Modules:
- `Php` (`php.dfy`) holds the PHP semantics the code relies on: `empty`, `(int)`, loose comparisons with words, `strpos`, `str_replace`, `trim`, `explode`/`implode` and `ucwords`.
- `WpHost` (`wp_host.dfy`) holds the WordPress state the class reads, as a `Host` snapshot, and the calls the class makes into `pods_api()`, as `ApiCall` values.
- `PodResolver` (`pod_resolver.dfy`) states `init` as the function `InitSpec` and proves what each of its paths yields.
  - `InitSpec` follows the CORRECTED reading of lines 103, 132 and 280 (see the Findings section below): a stored Pod is found by its id and by its name.
  - Every member stated through `InitSpec` therefore describes the corrected behaviour. These are the lemmas about `init`, and the class's constructor, `Init`, `Save` and `Duplicate`.
  - The code as written is modelled beside it by `IdLookupAsWritten` and `NameLookupAsWritten`. The finding lemmas state where the two readings differ.
- `PodObject` (`pod_object.dfy`) holds the class `PodsObjectPod`.
  - Its fields `obj`, `valid`, `live` and `tableInfo` are updated in place.
  - A ghost `apiLog` records each API call.
  - What an API call answers is a parameter of the method that makes it.
  - Every method is proved against `InitSpec` (so against the corrected lines 103, 132 and 280) or states its whole new state.
- `FileUpload` (`file_upload.dfy`) holds the template's computations.
  - The nested loops of lines 105-139 are the method `CollapseLimitTypes`, proved to compute the function `Collapse`.
  - `wp_get_mime_types()` is a parameter table, ordered as WordPress returns it.

## Model

| member | source | states |
|---|---|---|
| PodResolver.ParentIdOf | classes/PodsObject_Pod.php:84-96 | no parent gives parent id 0; an integer parent is the id itself; an object carrying `id` gives that id cast to int, and one without gives 1 (`(int)` of an object); an array with a non-null `id` gives that id cast to int; any other value is cast with `(int)` |
| PodResolver.IdLookup | classes/PodsObject_Pod.php:98-105 | corrected line 103: a positive id is followed exactly when its post exists with post type `_pods_pod`, and then it yields that post; otherwise lookup falls back to the name |
| PodResolver.IdLookupAsWritten | classes/PodsObject_Pod.php:99-105 | as written (line 103 reads a property of an array row): a post is only ever taken when it exists under that id; `StoredPodMissedByIdAsWritten` shows that a stored Pod is missed |
| PodResolver.ReadIndex | classes/PodsObject_Pod.php:280 | `$_object[ $key ]` is a fatal error exactly on a `WP_Post` object and reads the row's column on an array row |
| PodResolver.FoundCandidate | classes/PodsObject_Pod.php:278-285 | a found post is fatal exactly when held as an object; otherwise it becomes the post candidate, whose `ID` column is the post's id |
| PodResolver.BuiltInObject | classes/PodsObject_Pod.php:134-161 | exactly `user`, `media` and `comment` give a core object with their own name and type, their fixed plural and singular labels, and no id, storage or parent id |
| PodResolver.CoreObject | classes/PodsObject_Pod.php:134-161 | a core object carries exactly name, label, singular label and type |
| PodResolver.Unprefixed | classes/PodsObject_Pod.php:164-170 | a known name or one starting with the prefix is kept; otherwise every occurrence of the prefix is removed; a name without the prefix is unchanged |
| PodResolver.UnprefixedInside | classes/PodsObject_Pod.php:166-167 | an unknown name with the prefix inside it, such as `my_post_type_book`, keeps the text before the first occurrence and loses that occurrence |
| PodResolver.SplitOccurrence | classes/PodsObject_Pod.php:166-167 | an occurrence after a non-empty head is not at the start, and removing it keeps the head |
| PodResolver.HostTypeObject | classes/PodsObject_Pod.php:172-183 | the labels array wins over the built keys; name, type and object default to the name and kind; label and singular label come from the labels `name` and `singular_name` |
| PodResolver.CommentLabel | classes/PodsObject_Pod.php:240 | position by position: `-` and `_` become a space, and a letter that starts the name or follows a space, tab, line break, `-` or `_` is upper-cased (`ucwords` of the spaced name); all else is kept and the length is the name's |
| PodResolver.CommentCandidateInside | classes/PodsObject_Pod.php:224-226 | a name with `comment_` inside it, such as `my_comment_note`, gives a comment definition named by the text before the first occurrence followed by the rest with `comment_` removed |
| PodResolver.CommentNamed | classes/PodsObject_Pod.php:224-259 | a name not starting with `comment_` gives a definition whose name is the name with `comment_` removed |
| PodResolver.CommentCandidate | classes/PodsObject_Pod.php:224-259 | a name already starting with `comment_` is not found; any other name gives a definition of type `comment` whose name and object are the name without `comment_` and whose labels are its title-cased form |
| PodResolver.HostTypeCandidate | classes/PodsObject_Pod.php:162-260 | never fatal; a non-empty array when found; a registered post type gives its post-type definition |
| PodResolver.HostTypeFallbacks | classes/PodsObject_Pod.php:163-260 | an unknown name not starting with `post_type_` is retried without it as a post type; a name free of `post_type_` that is a taxonomy gives its taxonomy definition (storage `none`); one not starting with `taxonomy_` is retried without it as a taxonomy; a name free of both prefixes found nowhere becomes the comment candidate |
| PodResolver.NameLookup | classes/PodsObject_Pod.php:119-261 | corrected lines 132 and 280: a stored Pod of that name and parent is the post candidate; otherwise a core object; otherwise the host-type chain; never fatal |
| PodResolver.NameLookupAsWritten | classes/PodsObject_Pod.php:119-261 | as written: fatal exactly when a stored Pod of that name and parent exists (line 280 indexes the `WP_Post` of line 132); otherwise the same as `NameLookup` |
| PodResolver.SelectCandidate | classes/PodsObject_Pod.php:107-261 | an array argument is the candidate; a `_pods_pod` WP_Post is its own candidate; another object with that post type is fetched again by its ID (lines 112-114), not found leaving nothing; any other post object is fatal; a name or null goes to `NameLookup` (null as the empty name) and is never fatal |
| PodResolver.Defaults | classes/PodsObject_Pod.php:264-276 | id 0, type post_type, storage meta and the caller's parent id, with name and both labels present |
| PodResolver.DefaultValues | classes/PodsObject_Pod.php:264-276 | exactly the eleven keys, with empty name, labels, description, object and alias, `show_in_menu` 1, id 0, type post_type, storage meta and the caller's parent id |
| PodResolver.PostFields | classes/PodsObject_Pod.php:278-285 | a stored post gives exactly its id, slug as name, title as label and content as description |
| PodResolver.WithLabels | classes/PodsObject_Pod.php:289-295 | an empty label becomes the name and an empty singular label becomes the label; every other key is kept |
| PodResolver.Normalise | classes/PodsObject_Pod.php:263-295 | the candidate's keys override the defaults; the result's keys are the union; labels are never left empty without their fallback |
| PodResolver.ApplyMeta | classes/PodsObject_Pod.php:306-312 | each listed key whose meta is not null is overwritten by it, and nothing else changes |
| PodResolver.ResetEmptyKinds | classes/PodsObject_Pod.php:314-320 | an empty type becomes post_type and an empty storage becomes meta; non-empty ones and all other keys are kept |
| PodResolver.WithMeta | classes/PodsObject_Pod.php:297-321 | a definition with id not above 0 is unchanged; otherwise type and storage end up non-empty; no key is lost and the id is kept |
| PodResolver.WithMetaKeeps | classes/PodsObject_Pod.php:297-321 | a key outside the meta list passes through the meta step unchanged |
| PodResolver.WithMetaOverrides | classes/PodsObject_Pod.php:306-312 | a stored Pod's non-null `object`, `alias` or `show_in_menu` meta replaces the field |
| PodResolver.CandidateFields | classes/PodsObject_Pod.php:278-287 | a post candidate contributes its post fields and an array candidate its own array |
| PodResolver.Definition | classes/PodsObject_Pod.php:263-328 | fatal exactly for a fatal candidate; resolved exactly for a post or a non-empty array, and then with id, name and label set |
| PodResolver.Settle | classes/PodsObject_Pod.php:323-328 | a resolved definition is stored, marks the object valid and answers its id; not found answers false and changes nothing |
| PodResolver.IsRefresh | classes/PodsObject_Pod.php:78 | the refresh test: null name, id loosely equal to 0, null parent and a valid object (no contract of its own; `RefreshById` and `RefreshReloads` state what it leads to) |
| PodResolver.InitSpec | classes/PodsObject_Pod.php:69-330 | `init` as a function of the host and the state, following the corrected lines 103, 132 and 280 (no contract of its own; `InitOutcome` and the lemmas below state its properties) |
| PodResolver.InitOutcome | classes/PodsObject_Pod.php:69-330 | every call, through the retry by name, answers the id of the definition it leaves valid, or answers false or ends fatally with the object as it was (or destroyed by a refresh); an object that becomes valid answers its id |
| PodResolver.SettleShape | classes/PodsObject_Pod.php:323-328 | settling any outcome from the state or the destroyed state has that shape |
| PodResolver.IdFallbackDropsParent | classes/PodsObject_Pod.php:101-105 | a positive id that is not a stored Pod resolves as `init( $name, 0 )`, dropping the parent |
| PodResolver.InitByName | classes/PodsObject_Pod.php:69-261 | without refresh or positive id, init settles the candidate the name selects |
| PodResolver.InitById | classes/PodsObject_Pod.php:98-105 | without refresh, an id leading to a stored Pod settles that post's definition (corrected line 103) |
| PodResolver.ResolvedCandidate | classes/PodsObject_Pod.php:263-321 | a non-empty candidate resolves to its fields over the defaults with meta applied |
| PodResolver.BuiltInFallback | classes/PodsObject_Pod.php:134-161 | with no stored Pod of that name, `user`, `media` and `comment` load a valid definition with id 0, that name and type, meta storage, the caller's parent and the core labels, and answer 0 |
| PodResolver.BuiltInDefinition | classes/PodsObject_Pod.php:263-321 | a core object's definition has id 0, its name and type, meta storage, the given parent and its labels |
| PodResolver.UnsavedDefinition | classes/PodsObject_Pod.php:263-321 | fields without id, storage or parent but with both labels keep them over the defaults, and no meta applies |
| PodResolver.ResolveById | classes/PodsObject_Pod.php:98-105 | corrected line 103: a stored Pod reached by its id becomes the valid definition built from that post under the caller's parent, and init answers its id |
| PodResolver.PostDefinition | classes/PodsObject_Pod.php:278-321 | a stored post's definition keeps its id, slug, content and the parent; its label is the title, or the slug when the title is empty |
| PodResolver.PostNormalised | classes/PodsObject_Pod.php:278-295 | the same facts before the meta step |
| PodResolver.NormaliseParent | classes/PodsObject_Pod.php:264-287 | when the fields carry no parent id, changing the parent changes only `parent_id` |
| PodResolver.WithLabelsUpdate | classes/PodsObject_Pod.php:289-295 | label defaulting commutes with writing any key other than name and the labels |
| PodResolver.ApplyMetaUpdate | classes/PodsObject_Pod.php:306-312 | applying meta commutes with writing a key outside the meta list |
| PodResolver.WithMetaUpdate | classes/PodsObject_Pod.php:297-321 | the whole meta step commutes with writing a key other than id and the meta keys |
| PodResolver.ResetEmptyKindsUpdate | classes/PodsObject_Pod.php:314-320 | resetting type and storage commutes with writing any other key |
| PodResolver.DefinitionParent | classes/PodsObject_Pod.php:263-321 | for fields without a parent id, two definitions differ only in `parent_id` |
| PodResolver.StoredDefinitionParent | classes/PodsObject_Pod.php:263-321 | two definitions of one stored post differ only in `parent_id` |
| PodResolver.RefreshById | classes/PodsObject_Pod.php:78-82 | corrected line 103: refreshing a valid object whose id is a stored Pod reloads that Pod with parent 0 and answers the id |
| PodResolver.RefreshReloads | classes/PodsObject_Pod.php:78-82 | corrected line 103: a refresh after loading a stored Pod gives the same answer and the same definition, except that `parent_id` becomes 0 |
| PodResolver.NamesNeverAbort | classes/PodsObject_Pod.php:69-261 | corrected lines 103, 132 and 280: with id 0 and a string, null or array name, init never ends in a fatal error, even through a refresh |
| PodResolver.ForeignPostAborts | classes/PodsObject_Pod.php:107-114 | a post object of another post type ends in a fatal error and leaves the state unchanged |
| PodResolver.CommentPrefixNotFound | classes/PodsObject_Pod.php:224-259 | a `comment_` name that matches nothing else is not found: init answers false and changes nothing |
| PodResolver.StoredPodMissedByIdAsWritten | classes/PodsObject_Pod.php:103 | as written, a stored Pod's id falls back to the name, while the corrected lookup finds the post |
| PodResolver.IdAlwaysFallsBackAsWritten | classes/PodsObject_Pod.php:100-104 | as written, the id step falls back to the name for every id and every host, because `->post_type` on the fetched array row reads null |
| PodResolver.StoredPodByNameCrashesAsWritten | classes/PodsObject_Pod.php:128-132 | as written, a Pod found by name is fatal, while the corrected lookup gives the post candidate |
| PodObject.SaveOptions | classes/PodsObject_Pod.php:397-401 | an options array with no value is sent as is; an array with a value sends nothing; a single name sends its array key (`ArrayKey`) mapped to the value |
| PodObject.DuplicateOptions | classes/PodsObject_Pod.php:448-456 | an empty options array answers the current id; a non-empty one proceeds; a name with a value proceeds with `name => value`; a name without a value answers the id exactly when it is empty |
| PodObject.Written | classes/PodsObject_Pod.php:420-424 | the options written back are exactly the sent ones whose key is not loosely equal to `id` (`id` itself and the integer key 0), with their values |
| PodObject.WrittenStep | classes/PodsObject_Pod.php:420-424 | writing one more option extends the written map by that option unless it is skipped |
| PodObject.DeleteParams | classes/PodsObject_Pod.php:484-487 | delete sends exactly the definition's id and name |
| PodObject.Merge | classes/PodsObject_Pod.php:263-295 | the merge computes `Normalise` |
| PodObject.MetaOverrides | classes/PodsObject_Pod.php:297-321 | the meta step computes `WithMeta` |
| PodObject.ReadMeta | classes/PodsObject_Pod.php:306-312 | the meta loop computes `ApplyMeta` |
| PodObject.PodsObjectPod.constructor | classes/PodsObject_Pod.php:48-58 | the new object holds the state `InitSpec` gives from the destroyed state (corrected lines 103, 132 and 280); it is live only when asked and `init` answers an id above 0 (lines 52-54); empty cache and no API calls |
| PodObject.PodsObjectPod.Destroy | classes/PodsObject_Pod.php:81 | the definition is dropped and the object becomes invalid |
| PodObject.PodsObjectPod.Init | classes/PodsObject_Pod.php:69-328 | the new state and the answer are those of `InitSpec` from the old state (corrected lines 103, 132 and 280) |
| PodObject.PodsObjectPod.Resolve | classes/PodsObject_Pod.php:263-328 | the new state and the answer settle the candidate's definition |
| PodObject.PodsObjectPod.Save | classes/PodsObject_Pod.php:391-427 | invalid answers false; nothing to save answers the id; otherwise one `save_pod` call with the id added, then either a reload by the answer through `InitSpec` (corrected lines 103, 132 and 280) or every option not loosely equal to `id` written into the definition |
| PodObject.PodsObjectPod.WriteOptions | classes/PodsObject_Pod.php:420-424 | the definition becomes the old one overridden by the written options |
| PodObject.PodsObjectPod.OffsetSet | classes/PodsObject_Pod.php:422 | one option is written into the definition |
| PodObject.PodsObjectPod.Duplicate | classes/PodsObject_Pod.php:442-471 | invalid answers false; empty options answer the id; otherwise one `duplicate_pod` call with id and name added, then a reload by the answer through `InitSpec` (corrected lines 103, 132 and 280) when replacing, else the state is unchanged |
| PodObject.PodsObjectPod.Delete | classes/PodsObject_Pod.php:482-501 | `delete_pod` is called with id and name only for an id above 0, and answers its result (else false); the object ends destroyed |
| PodObject.PodsObjectPod.TableInfo | classes/PodsObject_Pod.php:366-377 | invalid answers an empty array; a filled cache is answered without a call; an empty one is filled by one `get_table_info` call with type, object, name and the definition itself |
| PodObject.PodsObjectPod.TableInfoClear | classes/PodsObject_Pod.php:56 | the cache becomes empty |
| PodObject.PodsObjectPod.ObjectFields | classes/PodsObject_Pod.php:342-358 | with `fields` set nothing changes; otherwise a custom Pod stores what `pods_object_field` gives for the last stored object field, and any other Pod stores the one `get_wp_object_fields` answer; the answer is `_fields( 'object_fields', $object_field, $option )` read from the definition then held |
| WpHost.PostRow | classes/PodsObject_Pod.php:100 | the row `get_post( ..., ARRAY_A )` answers is a non-empty array whose `ID` and `post_type` columns are the post's |
| WpHost.FetchedRow | classes/PodsObject_Pod.php:100-103 | the fetched row is empty exactly when no post has that id, and is that post's row otherwise |
| Php.ArrayKey | classes/PodsObject_Pod.php:399 | a string key is itself; null is `''`; booleans are `'1'` and `'0'`; an integer key is its canonical decimal form, which `(int)` reads back as that integer; an array key is illegal |
| Php.ToInt | ui/fields/file-upload/file-upload.php:35 | integers are themselves; null, false and the empty array are 0; true and a non-empty array are 1; a string is read by `StrToInt` |
| Php.StrToInt | ui/fields/file-upload/file-upload.php:35 | the empty string is 0, and only a leading `-` gives a negative number |
| Php.IntStringRoundTrip | ui/fields/file-upload/file-upload.php:35 | the `(int)` cast of an integer's decimal text is that integer |
| Php.Ucwords | classes/PodsObject_Pod.php:240 | each letter after a word delimiter, and the first, is upper-cased; nothing else changes |
| Php.RemoveAll | classes/PodsObject_Pod.php:167 | `str_replace( $p, '', $s )` never lengthens the string, adds no character, and leaves a string without `$p` unchanged; where it cuts is stated by `Php.RemoveAllSplit` |
| Php.RemoveAllSplit | classes/PodsObject_Pod.php:167 | at the first occurrence of `$p` the text before it is kept as it is, the occurrence is removed, and the scan goes on after it |
| Php.SplitStep | classes/PodsObject_Pod.php:167 | with no occurrence starting in `a`, none starts in `a` without its first character either, and `a + p + b` does not start with `p` |
| Php.ReplaceChar | ui/fields/file-upload/file-upload.php:100-101 | the replaced character is gone unless the replacement has it; no character outside input and replacement appears; an absent character changes nothing; an empty replacement drops exactly that character |
| Php.ReplaceCharInPlace | classes/PodsObject_Pod.php:240 | a one-character replacement substitutes it at every position of the character and nowhere else |
| Php.ReplaceDrop | ui/fields/file-upload/file-upload.php:100-101 | replacing a separator by separators changes nothing once separators are dropped |
| Php.Drop | ui/fields/file-upload/file-upload.php:100-101 | dropping characters never lengthens a string |
| Php.DropTwice | ui/fields/file-upload/file-upload.php:100-101 | removing one set of characters and then another is removing both at once |
| Php.DropKeeps | ui/fields/file-upload/file-upload.php:100-101 | what is left is exactly the input's characters outside the dropped set |
| Php.Trim | ui/fields/file-upload/file-upload.php:100-101 | neither edge is the trimmed character; the result is the slice of the input starting where the leading run of that character ends, and only that character lies before and after it |
| Php.TrimUntouched | ui/fields/file-upload/file-upload.php:100-101 | a string whose edges are not the character is unchanged |
| Php.TrimDrop | ui/fields/file-upload/file-upload.php:100-101 | trimming a dropped character changes nothing once it is dropped |
| Php.Explode | ui/fields/file-upload/file-upload.php:107 | a split has at least one piece, and no piece holds the separator |
| Php.Implode | ui/fields/file-upload/file-upload.php:138 | joining one piece gives that piece |
| Php.ImplodeExplode | ui/fields/file-upload/file-upload.php:107 | joining the pieces of a split gives the string back |
| Php.ImplodeAppend | ui/fields/file-upload/file-upload.php:138 | joining a list with one more piece is the join of the list, the separator, then that piece |
| Php.BeforeFirst | ui/fields/file-upload/file-upload.php:111-112 | the first piece of a split is a prefix without the separator, followed by the separator when shorter |
| FileUpload.OptionOr | ui/fields/file-upload/file-upload.php:34-35 | a set, non-null option is answered; otherwise the fallback; a non-null fallback gives a non-null answer |
| FileUpload.StrictOptionOr | ui/fields/file-upload/file-upload.php:98 | a non-empty option is answered; otherwise the fallback; a non-empty fallback gives a non-empty answer |
| FileUpload.FileLimit | ui/fields/file-upload/file-upload.php:33-36 | a field not loosely equal to `multi` takes one file |
| FileUpload.FileLimitCases | ui/fields/file-upload/file-upload.php:33-36 | no format or `single` gives 1; `multi` with no limit gives 0; `multi` with a limit as an integer or as its decimal text gives that limit |
| FileUpload.ListValue | ui/fields/file-upload/file-upload.php:40-44 | always a list; empty exactly for an empty value; a list is kept; a scalar becomes `[0 => value]` |
| FileUpload.ListValueIdempotent | ui/fields/file-upload/file-upload.php:40-44 | listing a listed value changes nothing |
| FileUpload.PresetFrom | ui/fields/file-upload/file-upload.php:77-99 | no preset exactly when no later name loosely equals the file type; otherwise the first preset from there whose name loosely equals it |
| FileUpload.Preset | ui/fields/file-upload/file-upload.php:77-99 | the `if`/`elseif` chain: no preset exactly when no name loosely equals the file type; otherwise the first that does |
| FileUpload.PresetByName | ui/fields/file-upload/file-upload.php:77-96 | each preset name selects its own preset, and only those names select one |
| FileUpload.PresetLooseMatch | ui/fields/file-upload/file-upload.php:77-96 | loose comparison makes 0 and true select the images preset, while 3, false and an empty array select none |
| FileUpload.ReplaceSeparators | ui/fields/file-upload/file-upload.php:100-101 | no space, dot, newline, tab or semicolon is left; position by position the result is the input without spaces and semicolons, with each dot, newline and tab turned into a comma and every other character kept |
| FileUpload.CommasInPlace | ui/fields/file-upload/file-upload.php:100-101 | the dot, newline and tab replacements in turn convert the string in place, keeping its length |
| FileUpload.DropConverted | ui/fields/file-upload/file-upload.php:100-101 | removing the semicolons after the conversion is converting after removing them |
| FileUpload.Scrub | ui/fields/file-upload/file-upload.php:100-101 | the result has no space, dot, newline, tab or semicolon and no comma at either end; with commas dropped it is the input with every separator dropped; position by position it is a slice of the input without spaces and semicolons, converted, with only characters that convert to a comma before and after it |
| FileUpload.TrimConverted | ui/fields/file-upload/file-upload.php:100-101 | trimming the commas off a converted string leaves a converted slice of the original, starting where the leading run of commas ends |
| FileUpload.ScrubKeeps | ui/fields/file-upload/file-upload.php:100-101 | every non-comma character of the result was in the input |
| FileUpload.ScrubStable | ui/fields/file-upload/file-upload.php:100-101 | an already clean list is unchanged |
| FileUpload.ScrubIdempotent | ui/fields/file-upload/file-upload.php:100-101 | scrubbing twice is scrubbing once |
| FileUpload.PresetScrubbed | ui/fields/file-upload/file-upload.php:77-101 | the scrub leaves each preset's types and extensions unchanged |
| FileUpload.MimeOf | ui/fields/file-upload/file-upload.php:110 | a found MIME type is listed under exactly that extension; not found means no entry has it |
| FileUpload.AddNew | ui/fields/file-upload/file-upload.php:114-115 | a major type already listed leaves the list as it is; a missing one is appended at the end; so the list grows by at most one and stays free of duplicates |
| FileUpload.MatchAll | ui/fields/file-upload/file-upload.php:118-130 | the scan only extends the list, does not change it when nothing matches, and keeps it free of duplicates |
| FileUpload.MatchAllMeaning | ui/fields/file-upload/file-upload.php:118-130 | `found` holds exactly when some table key contains the token; every match's major type is added; nothing else is |
| FileUpload.CollapseToken | ui/fields/file-upload/file-upload.php:109-134 | each token extends the list and leaves it non-empty |
| FileUpload.CollapseTokenMeaning | ui/fields/file-upload/file-upload.php:109-134 | a token adds exactly what it contributes: its exact MIME's major type, the major types of entries containing it, or itself when nothing matches |
| FileUpload.Collapse | ui/fields/file-upload/file-upload.php:105-135 | some tokens always give a non-empty list |
| FileUpload.CollapseMeaning | ui/fields/file-upload/file-upload.php:105-135 | the collapsed list holds everything some token contributes and nothing else |
| FileUpload.CollapseNoDuplicates | ui/fields/file-upload/file-upload.php:105-135 | when every token is found in the table, no type is listed twice |
| FileUpload.CollapseGrows | ui/fields/file-upload/file-upload.php:109-135 | the list built from the first tokens is a prefix of the whole result, so types appear in order of first contribution |
| FileUpload.CollapseLimitTypes | ui/fields/file-upload/file-upload.php:105-135 | the two nested loops compute `Collapse` |
| FileUpload.CustomAllowed | ui/fields/file-upload/file-upload.php:97-139 | the custom extension list is the scrubbed option (so `Scrub`'s per-position contract applies to it) and, with commas dropped, is the option with every separator dropped; the types are the collapsed tokens of that list joined by commas |
| FileUpload.UploadLimits | ui/fields/file-upload/file-upload.php:72-139 | the extension list is always scrubbed |
| FileUpload.PresetLimits | ui/fields/file-upload/file-upload.php:77-101 | a preset name gives exactly that preset's types and extensions |
| FileUpload.DefaultAndAnyLimits | ui/fields/file-upload/file-upload.php:72-96 | no file type option gives images (`image`, `jpg,jpeg,png,gif`); `any` gives no types and extensions `*` |
| FileUpload.CustomLimits | ui/fields/file-upload/file-upload.php:97-139 | for a custom type the extensions are the scrubbed option, and the types are the collapsed tokens joined by commas, holding exactly what the tokens contribute |
| FileUpload.EmptyCustomList | ui/fields/file-upload/file-upload.php:97-139 | an empty custom list leaves both limits empty |
| FileUpload.Limits | ui/fields/file-upload/file-upload.php:72-139 | the computed types and extensions are `UploadLimits` |
| FileUpload.PrepareUpload | ui/fields/file-upload/file-upload.php:33-44 | the file limit, the listed value and the options with `limit_types` and `limit_extensions` set to the computed limits (lines 141-142) |

## Left out

- The `switch_blog` hook registration (line 56) is not modelled. `TableInfoClear` is the method it would call.
- The parent class `PodsObject` is not part of this model. Its `is_valid`, `destroy`, `offsetSet` and `_meta` are read as follows:
  - `is_valid` is the `valid` flag.
  - `destroy` clears the definition and the flag. It leaves the table-info cache and `_live` alone.
  - `offsetSet` is a plain key write.
  - `_meta( $key, $id, true )` is a lookup in the host's meta, null when absent.
- `__()` is read as the identity: no translation.
- WordPress and the Pods API are data and parameters. `get_post`, `get_posts`, `get_post_type_object`, `get_taxonomy` and the meta store form the `Host` snapshot. Each `pods_api()` call is logged, and its answer is a parameter. Errors raised inside those calls are not modelled.
- `get_posts` by name is a map from (name, parent id) to the first hit. Its ordering and its other query arguments are not modelled.
- `pods_v` is not part of this model. It is read as "the option when set and not null, else the default". The strict `pods_var` form also falls back on an empty option.
- PHP arrays at the top level (the definition, options and API parameters) are maps without order. Nested arrays are ordered lists of entries. `array_merge` renumbering of integer keys is not modelled.
- `PodObject.DuplicateOptions` stops with a fatal outcome for a non-empty scalar `$options` given without a value. In PHP the writes of `id` and `name` into that scalar only warn or fail depending on its type and the PHP version. This call is taken as unusable rather than modelled per type.
- `PodResolver.IsRefresh`: a refresh follows the stored id with no parent, so `parent_id` becomes 0. `RefreshReloads` states this.
- `PodObject.Written`: top-level keys are strings here, so the integer key 0 is the string "0". Under PHP 7, `'id' != 0` is false, so that key is skipped along with `id`. PHP 8 would write it.
- `in_array` over the collected major types (lines 114 and 125) is exact string membership. Numeric-string loose equality between MIME major types is left out.
- `FileUpload.UploadLimits` reads an array-valued `_allowed_extensions` option as the empty string. PHP would pass the array itself to `str_replace`.
- `FileUpload.CollapseNoDuplicates` requires every token to be found in the table. An unmatched token is appended as it is, even when already present (line 133), so the unconditional form does not hold.
- The rest of the template after line 142 is not modelled: the button text, `model_data`, the attachment loop and the HTML. The same goes for the title and link options (lines 74-75).
- Integers are unbounded. Overflow to float is not modelled.
- Php.StrToInt: reads only an optional sign and the leading decimal digits. PHP's `(int)` of a string also skips leading whitespace and reads numeric strings with an exponent or a fraction (`"1e3"` gives 1000); those forms are not modelled. Option values in the template are integers or plain digit strings.
- PodObject.PodsObjectPod.ObjectFields: the parent class's `_fields()` and `is_custom()` are not part of this model. `_fields( 'object_fields', $object_field, $option )` is the function parameter `fieldsOf`, applied to the definition then held and both arguments. `is_custom()` is the boolean parameter `isCustom`. `pods_object_field()` is the function parameter `objectField`.
- PodResolver.HostTypeFallbacks: a name that contains `post_type_` and is no post type even without it goes on to the taxonomy and comment steps under its stripped form. The lemma states the taxonomy and comment steps only for names without `post_type_`; `HostTypeCandidate` computes the combined path.

## Findings

| source | as written | input that shows it | evidently intended | confidence | as-written member | corrected member |
|---|---|---|---|---|---|---|
| classes/PodsObject_Pod.php:103 | `get_post( $id, ARRAY_A )` gives an array, but the check reads `$_object->post_type`. That is null, so every id falls back to the name lookup with id 0. | `init( null, 42 )` where post 42 is a `_pods_pod` post: the Pod is not loaded by its id | read `$_object[ 'post_type' ]` and load the Pod by its id | not executed | PodResolver.IdLookupAsWritten (with PodResolver.IdAlwaysFallsBackAsWritten and PodResolver.StoredPodMissedByIdAsWritten) | PodResolver.IdLookup |
| classes/PodsObject_Pod.php:132 | `get_posts` returns `WP_Post` objects, but line 280 indexes the found post as an array (`$_object[ 'ID' ]`). That is a fatal error. | `init( 'book' )` where a `_pods_pod` post named `book` exists | convert the found post to an array (or read its properties) and build the definition from it | not executed | PodResolver.NameLookupAsWritten (with PodResolver.StoredPodByNameCrashesAsWritten) | PodResolver.NameLookup |
