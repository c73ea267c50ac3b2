/**
 * How `PodsObject_Pod::init` turns its arguments into a Pod definition: the ordered
 * fallback chain that picks a candidate record, the merge over fixed defaults, label
 * defaulting and the meta overrides of stored Pods. `InitSpec` is the whole of `init`
 * as a function of the WordPress snapshot and the object's state; the class method
 * `PodObject.PodsObjectPod.Init` is proved to compute it.
 */
module PodResolver {
  import opened Php
  import opened WpHost

  /** The `$name` argument of `init`. */
  datatype NameArg =
    | NoName                                       // null
    | Named(s: string)                             // a Pod, post type or taxonomy name
    | PostObject(isWPPost: bool, post: PostRecord) // an object with a post_type property
    | ArrayArg(m: map<string, Value>)                 // an array holding a definition

  /** The `$parent` argument: a plain value (null, an id, an array) or an object. */
  datatype ParentArg = ParentValue(v: Value) | ParentObject(props: map<string, Value>)

  const NoParent: ParentArg := ParentValue(VNull)

  /** Lines 85-96: the parent's `id` when an object or array carries one, then `(int)`. */
  function ParentIdOf(p: ParentArg): (n: int)
    ensures p == NoParent ==> n == 0
    ensures p.ParentValue? && p.v.VInt? ==> n == p.v.i
    ensures p.ParentObject? && Get(p.props, "id") != VNull ==> n == ToInt(p.props["id"])
    ensures p.ParentObject? && Get(p.props, "id") == VNull ==> n == 1
    ensures p.ParentValue? && p.v.VArr? && Lookup(p.v.entries, "id").Some? && Lookup(p.v.entries, "id").value != VNull ==>
      n == ToInt(Lookup(p.v.entries, "id").value)
    ensures p.ParentValue? && !(p.v.VArr? && Lookup(p.v.entries, "id").Some? && Lookup(p.v.entries, "id").value != VNull) ==>
      n == ToInt(p.v)
  {
    match p
    case ParentObject(props) =>
      // (int) of an object without an id is 1
      if Get(props, "id") != VNull then ToInt(props["id"]) else 1
    case ParentValue(v) =>
      if v.VArr? then
        match Lookup(v.entries, "id")
        case Some(x) => if x != VNull then ToInt(x) else ToInt(v)
        case None => ToInt(v)
      else ToInt(v)
  }

  /** What the lookup chain settles on: a stored post (`$_object`), a definition array (`$object`), nothing, or a PHP fatal error. */
  datatype Candidate =
    | Post(post: PostRecord)
    | Array(fields: map<string, Value>)
    | Nothing
    | Crash

  /** The answer of the id lookup: take the stored post, or resolve by name with id 0 and no parent. */
  datatype IdStep = UsePost(post: PostRecord) | ByNameInstead

  /**
   * Lines 99-105, with the post type read from the fetched row as an array column: a post is
   * taken only when it exists and is a stored Pod.
   */
  function IdLookup(h: Host, id: Value): (r: IdStep)
    ensures r.UsePost? <==> ToInt(id) in h.posts && h.posts[ToInt(id)].postType == PodPostType
    ensures r.UsePost? ==> r.post == h.posts[ToInt(id)]
  {
    var key := ToInt(id);
    var row := FetchedRow(h, key);
    if Empty(row) || !LooseEqualsWord(RowValue(row, "post_type"), PodPostType) then ByNameInstead
    else UsePost(h.posts[key])
  }

  /**
   * Lines 99-105 as written: `get_post( $id, ARRAY_A )` answers an array, and line 103 reads
   * `$_object->post_type` from it as if it were an object.
   */
  function IdLookupAsWritten(h: Host, id: Value): (r: IdStep)
    ensures r.UsePost? ==> ToInt(id) in h.posts && r.post == h.posts[ToInt(id)]
  {
    var key := ToInt(id);
    var row := FetchedRow(h, key);
    if Empty(row) || !LooseEqualsWord(PropertyOf(row, "post_type"), PodPostType) then ByNameInstead
    else
      match PostWithId(h, key)
      case Some(p) => UsePost(p)
      case None => ByNameInstead
  }

  /** What `$_object` holds once a post is found: a `WP_Post` object, or an array row. */
  datatype Held = HeldObject(post: PostRecord) | HeldRow(post: PostRecord)

  /**
   * `$_object[ $key ]`: a column of a row; `WP_Post` does not implement `ArrayAccess`, so on an
   * object the read is a fatal error (`None`).
   */
  function ReadIndex(held: Held, key: string): (r: Option<Value>)
    ensures r.None? <==> held.HeldObject?
    ensures held.HeldRow? ==> r == Some(RowValue(PostRow(held.post), key))
  {
    match held
    case HeldObject(_) => None
    case HeldRow(p) => Some(RowValue(PostRow(p), key))
  }

  /** Lines 278-285 for a found post: the first read, `$_object[ 'ID' ]`, decides whether the request survives. */
  function FoundCandidate(held: Held): (c: Candidate)
    ensures c.Crash? <==> held.HeldObject?
    ensures c.Post? ==> c.post == held.post && ReadIndex(held, "ID") == Some(VInt(c.post.id))
  {
    if ReadIndex(held, "ID").None? then Crash else Post(held.post)
  }

  /** Lines 135-161: the synthetic definitions of the core user, media and comment objects. */
  function BuiltInObject(name: string): (r: Option<map<string, Value>>)
    ensures r.Some? <==> name == "user" || name == "media" || name == "comment"
    ensures r.Some? ==> "name" in r.value && r.value["name"] == VStr(name)
    ensures r.Some? ==> "type" in r.value && r.value["type"] == VStr(name)
    ensures r.Some? ==> "id" !in r.value && "storage" !in r.value && "parent_id" !in r.value
    ensures r.Some? ==> "label" in r.value && "label_singular" in r.value
    ensures name == "user" ==> r.value["label"] == VStr("Users") && r.value["label_singular"] == VStr("User")
    ensures name == "media" ==> r.value["label"] == VStr("Media") && r.value["label_singular"] == VStr("Media")
    ensures name == "comment" ==> r.value["label"] == VStr("Pod Fields") && r.value["label_singular"] == VStr("Pod Field")
    ensures name == "comment" ==> "object" in r.value && r.value["object"] == VStr(name)
  {
    if name == "user" then Some(CoreObject(name, "Users", "User"))
    else if name == "media" then Some(CoreObject(name, "Media", "Media"))
    else if name == "comment" then Some(CoreObject(name, "Pod Fields", "Pod Field")["object" := VStr(name)])
    else None
  }

  /** The name, both labels and the type of a core object. */
  function CoreObject(name: string, plural: string, singular: string): (m: map<string, Value>)
    ensures m.Keys == {"name", "label", "label_singular", "type"}
  {
    map["name" := VStr(name), "label" := VStr(plural), "label_singular" := VStr(singular), "type" := VStr(name)]
  }

  /**
   * Lines 164-170 and 193-199: when `name` is not known, `prefix` is removed from it, but
   * only when `name` does NOT start with `prefix` (the source tests `0 !== strpos`).
   */
  function Unprefixed(name: string, known: bool, prefix: string): (r: string)
    requires prefix != []
    ensures known || StartsWith(name, prefix) ==> r == name
    ensures !known && !StartsWith(name, prefix) ==> r == RemoveAll(name, prefix)
    ensures !Occurs(name, prefix) ==> r == name
  {
    if known || StartsWith(name, prefix) then name else RemoveAll(name, prefix)
  }

  /**
   * A name with `prefix` inside it but not at its start, as `my_post_type_book`: the text before the
   * first occurrence is kept, that occurrence is removed, and later ones are removed as well.
   */
  lemma UnprefixedInside(a: string, prefix: string, b: string)
    requires a != [] && prefix != []
    requires !Occurs(a + prefix[..|prefix| - 1], prefix)
    ensures Unprefixed(a + prefix + b, false, prefix) == a + RemoveAll(b, prefix)
  {
    SplitOccurrence(a, prefix, b);
  }

  /** The occurrence of `p` after a non-empty `a` is not at the start, and removing `p` keeps `a`. */
  lemma SplitOccurrence(a: string, p: string, b: string)
    requires a != [] && p != []
    requires !Occurs(a + p[..|p| - 1], p)
    ensures !StartsWith(a + p + b, p)
    ensures RemoveAll(a + p + b, p) == a + RemoveAll(b, p)
  {
    NotStartingHere(a, p, b);
    RemoveAllSplit(a, p, b);
  }

  /** Lines 174-183 and 203-213: a host type's definition; the label object is merged over it last. */
  function HostTypeObject(name: string, labels: map<string, Value>, kind: string, storage: Option<string>): (m: map<string, Value>)
    ensures m.Keys == {"name", "label", "label_singular", "object", "type"} + labels.Keys
      + (if storage.Some? then {"storage"} else {})
    ensures forall k :: k in labels ==> m[k] == labels[k]
    ensures "name" !in labels ==> m["name"] == VStr(name)
    ensures "type" !in labels ==> m["type"] == VStr(kind)
    ensures "object" !in labels ==> m["object"] == VStr(name)
    ensures "label" !in labels ==> m["label"] == Get(labels, "name")
    ensures "label_singular" !in labels ==> m["label_singular"] == Get(labels, "singular_name")
  {
    var base := map["name" := VStr(name), "label" := Get(labels, "name"),
                    "label_singular" := Get(labels, "singular_name"), "object" := VStr(name), "type" := VStr(kind)];
    var withStorage := if storage.Some? then base["storage" := VStr(storage.value)] else base;
    withStorage + labels
  }

  /** The characters line 240 turns into blanks. */
  predicate Dashlike(c: char)
  {
    c == '-' || c == '_'
  }

  /**
   * Line 240: `ucwords( str_replace( array( '-', '_' ), ' ', $name ) )`. Every '-' and '_' becomes
   * a blank, and a letter that starts the name or follows a blank, '-' or '_' is upper-cased.
   */
  function CommentLabel(name: string): (title: string)
    ensures |title| == |name|
    ensures forall i :: 0 <= i < |name| ==>
      title[i] == if Dashlike(name[i]) then ' '
                  else if i == 0 || Dashlike(name[i - 1]) || IsWordDelimiter(name[i - 1]) then Upper(name[i])
                  else name[i]
  {
    var dashed := ReplaceChar(name, '-', " ");
    var spaced := ReplaceChar(dashed, '_', " ");
    ReplaceCharInPlace(name, '-', " ");
    ReplaceCharInPlace(dashed, '_', " ");
    assert forall i :: 0 <= i < |name| ==> spaced[i] == if Dashlike(name[i]) then ' ' else name[i];
    Ucwords(spaced)
  }

  /** Lines 224-259: the generic comment-type definition, tried only for a name that does not start with 'comment_'. */
  function CommentCandidate(name: string): (c: Candidate)
    ensures StartsWith(name, "comment_") <==> c == Nothing
    ensures c.Array? ==> "name" in c.fields
    ensures !StartsWith(name, "comment_") ==>
      var n := RemoveAll(name, "comment_");
      c == Array(map["name" := VStr(n), "label" := VStr(CommentLabel(n)), "label_singular" := VStr(CommentLabel(n)),
                     "object" := VStr(n), "type" := VStr("comment")])
  {
    if StartsWith(name, "comment_") then Nothing
    else
      var n := RemoveAll(name, "comment_");
      var title := VStr(CommentLabel(n));
      Array(map["name" := VStr(n), "label" := title, "label_singular" := title, "object" := VStr(n), "type" := VStr("comment")])
  }

  /** Lines 163-260: a host post type, else a host taxonomy, else a comment type. */
  function HostTypeCandidate(h: Host, name: string): (c: Candidate)
    ensures c != Crash && (c.Array? ==> c.fields != map[])
    ensures name in h.postTypes ==> c == Array(HostTypeObject(name, h.postTypes[name], "post_type", None))
  {
    var ptName := Unprefixed(name, name in h.postTypes, "post_type_");
    if ptName in h.postTypes then
      Array(HostTypeObject(ptName, h.postTypes[ptName], "post_type", None))
    else
      var taxName := Unprefixed(ptName, ptName in h.taxonomies, "taxonomy_");
      if taxName in h.taxonomies then
        Array(HostTypeObject(taxName, h.taxonomies[taxName], "taxonomy", Some("none")))
      else
        CommentCandidate(taxName)
  }

  /** A comment type named with 'comment_' inside, as `my_comment_note`, is named without that occurrence. */
  lemma CommentCandidateInside(a: string, b: string)
    requires a != [] && !Occurs(a + "comment", "comment_")
    ensures CommentCandidate(a + "comment_" + b).Array?
    ensures CommentCandidate(a + "comment_" + b).fields["name"] == VStr(a + RemoveAll(b, "comment_"))
  {
    var p := "comment_";
    assert p[..|p| - 1] == "comment";
    SplitOccurrence(a, p, b);
    CommentNamed(a + p + b, a + RemoveAll(b, p));
  }

  lemma CommentNamed(s: string, n: string)
    requires !StartsWith(s, "comment_") && RemoveAll(s, "comment_") == n
    ensures CommentCandidate(s).Array? && CommentCandidate(s).fields["name"] == VStr(n)
  {
  }

  /**
   * The lower fallbacks of lines 163-260: an unknown name is retried without 'post_type_' (when it
   * does not start with it), then looked up as a taxonomy, again retried without 'taxonomy_', and
   * last taken as a comment type.
   */
  lemma HostTypeFallbacks(h: Host, name: string)
    ensures var bare := RemoveAll(name, "post_type_");
      name !in h.postTypes && !StartsWith(name, "post_type_") && bare in h.postTypes ==>
      HostTypeCandidate(h, name) == Array(HostTypeObject(bare, h.postTypes[bare], "post_type", None))
    ensures name !in h.postTypes && !Occurs(name, "post_type_") && name in h.taxonomies ==>
      HostTypeCandidate(h, name) == Array(HostTypeObject(name, h.taxonomies[name], "taxonomy", Some("none")))
    ensures var bare := RemoveAll(name, "taxonomy_");
      name !in h.postTypes && !Occurs(name, "post_type_") && name !in h.taxonomies &&
      !StartsWith(name, "taxonomy_") && bare in h.taxonomies ==>
      HostTypeCandidate(h, name) == Array(HostTypeObject(bare, h.taxonomies[bare], "taxonomy", Some("none")))
    ensures name !in h.postTypes && !Occurs(name, "post_type_") && name !in h.taxonomies && !Occurs(name, "taxonomy_") ==>
      HostTypeCandidate(h, name) == CommentCandidate(name)
  {
  }

  /** Lines 121-261: a stored Pod of that name under the parent, else a core object, else a host type. */
  function NameLookup(h: Host, name: string, parentId: int): (c: Candidate)
    ensures c != Crash
    ensures (name, parentId) in h.podsByName ==> c == Post(h.podsByName[(name, parentId)])
    ensures (name, parentId) !in h.podsByName && BuiltInObject(name).Some? ==> c == Array(BuiltInObject(name).value)
    ensures (name, parentId) !in h.podsByName && BuiltInObject(name).None? ==> c == HostTypeCandidate(h, name)
  {
    if (name, parentId) in h.podsByName then FoundCandidate(HeldRow(h.podsByName[(name, parentId)]))
    else match BuiltInObject(name)
      case Some(m) => Array(m)
      case None => HostTypeCandidate(h, name)
  }

  /**
   * Lines 121-261 as written: `get_posts` answers `WP_Post` objects, so line 132 holds an object
   * and line 280 reads it as an array. Names that match no stored Pod go on as in `NameLookup`.
   */
  function NameLookupAsWritten(h: Host, name: string, parentId: int): (c: Candidate)
    ensures c.Crash? <==> (name, parentId) in h.podsByName
    ensures (name, parentId) !in h.podsByName ==> c == NameLookup(h, name, parentId)
  {
    if (name, parentId) in h.podsByName then FoundCandidate(HeldObject(h.podsByName[(name, parentId)]))
    else NameLookup(h, name, parentId)
  }

  /** Lines 107-261: the candidate when no id is followed. A null name is searched as the empty name. */
  function SelectCandidate(h: Host, name: NameArg, parentId: int): (c: Candidate)
    ensures name.ArrayArg? ==> c == Array(name.m)
    ensures name.PostObject? && name.post.postType != PodPostType ==> c == Crash
    ensures name.PostObject? && name.isWPPost && name.post.postType == PodPostType ==> c == Post(name.post)
    ensures !name.PostObject? ==> c != Crash
    ensures name.Named? ==> c == NameLookup(h, name.s, parentId)
    ensures name.NoName? ==> c == NameLookup(h, "", parentId)
    ensures name.PostObject? && !name.isWPPost && name.post.postType == PodPostType ==>
      c == if name.post.id in h.posts then Post(h.posts[name.post.id]) else Nothing
  {
    match name
    case NoName => NameLookup(h, "", parentId)
    case Named(s) => NameLookup(h, s, parentId)
    case ArrayArg(m) => Array(m)
    case PostObject(isWPPost, post) =>
      if post.postType != PodPostType then
        // the object reaches the name search, where str_replace cannot turn it into a string
        Crash
      else if isWPPost then Post(post)
      else if post.id in h.posts then Post(h.posts[post.id])
      else Nothing
  }

  /** Lines 264-276: the defaults every definition is merged over. */
  function Defaults(parentId: int): (d: map<string, Value>)
    ensures "id" in d && d["id"] == VInt(0)
    ensures "type" in d && d["type"] == VStr("post_type")
    ensures "storage" in d && d["storage"] == VStr("meta")
    ensures "parent_id" in d && d["parent_id"] == VInt(parentId)
    ensures "name" in d && "label" in d && "label_singular" in d
  {
    FixedDefaults["parent_id" := VInt(parentId)]
  }

  /** The defaults hold exactly the eleven keys of lines 264-276, each with its value there. */
  lemma DefaultValues(parentId: int)
    ensures var d := Defaults(parentId);
      && d.Keys == {"id", "name", "label", "label_singular", "description", "type", "storage",
                    "object", "alias", "show_in_menu", "parent_id"}
      && d["id"] == VInt(0) && d["parent_id"] == VInt(parentId)
      && d["type"] == VStr("post_type") && d["storage"] == VStr("meta") && d["show_in_menu"] == VInt(1)
      && d["name"] == VStr("") && d["label"] == VStr("") && d["label_singular"] == VStr("")
      && d["description"] == VStr("") && d["object"] == VStr("") && d["alias"] == VStr("")
  {
  }

  /** The defaults that do not depend on the parent. */
  const FixedDefaults: map<string, Value> :=
    map["id" := VInt(0), "name" := VStr(""), "label" := VStr(""), "label_singular" := VStr(""),
        "description" := VStr(""), "type" := VStr("post_type"), "storage" := VStr("meta"),
        "object" := VStr(""), "alias" := VStr(""), "show_in_menu" := VInt(1)]

  /** Lines 278-285: the keys taken from a stored post. */
  function PostFields(p: PostRecord): (m: map<string, Value>)
    ensures m.Keys == {"id", "name", "label", "description"}
    ensures m["id"] == VInt(p.id) && m["name"] == VStr(p.postName)
    ensures m["label"] == VStr(p.postTitle) && m["description"] == VStr(p.postContent)
  {
    map["id" := VInt(p.id), "name" := VStr(p.postName), "label" := VStr(p.postTitle), "description" := VStr(p.postContent)]
  }

  /** Lines 289-295: an empty label becomes the name, then an empty singular label becomes the label. */
  function WithLabels(m: map<string, Value>): (r: map<string, Value>)
    requires "name" in m && "label" in m && "label_singular" in m
    ensures r.Keys == m.Keys
    ensures forall k :: k in m && k != "label" && k != "label_singular" ==> r[k] == m[k]
    ensures !StrlenZero(m["label"]) ==> r["label"] == m["label"]
    ensures StrlenZero(m["label"]) ==> r["label"] == m["name"]
    ensures !StrlenZero(m["label_singular"]) ==> r["label_singular"] == m["label_singular"]
    ensures StrlenZero(m["label_singular"]) ==> r["label_singular"] == r["label"]
  {
    var m1 := if StrlenZero(m["label"]) then m["label" := m["name"]] else m;
    if StrlenZero(m1["label_singular"]) then m1["label_singular" := m1["label"]] else m1
  }

  /** Lines 264-295: the candidate merged over the defaults (array_merge: the candidate wins), then label defaulting. */
  function Normalise(fields: map<string, Value>, parentId: int): (r: map<string, Value>)
    ensures r.Keys == Defaults(parentId).Keys + fields.Keys
    ensures forall k :: k in fields && k != "label" && k != "label_singular" ==> r[k] == fields[k]
    ensures forall k :: k !in fields && k in Defaults(parentId) && k != "label" && k != "label_singular" ==> r[k] == Defaults(parentId)[k]
    ensures "label" in fields && !StrlenZero(fields["label"]) ==> r["label"] == fields["label"]
    ensures !StrlenZero(r["label"]) || r["label"] == r["name"]
    ensures !StrlenZero(r["label_singular"]) || r["label_singular"] == r["label"]
  {
    WithLabels(Defaults(parentId) + fields)
  }

  /** The five keys whose stored meta values override a stored Pod's definition (lines 298-304). */
  const MetaKeys: seq<string> := ["type", "storage", "object", "alias", "show_in_menu"]

  /** Lines 306-312 for the first |keys| meta keys: every non-null meta value replaces the key's value. */
  function ApplyMeta(obj: map<string, Value>, h: Host, id: int, keys: seq<string>): (r: map<string, Value>)
    ensures forall k :: k in r <==> k in obj || (k in keys && MetaOf(h, id, k) != VNull)
    ensures forall k :: k in keys && MetaOf(h, id, k) != VNull ==> r[k] == MetaOf(h, id, k)
    ensures forall k :: k in obj && (k !in keys || MetaOf(h, id, k) == VNull) ==> r[k] == obj[k]
  {
    if keys == [] then obj
    else
      var before := ApplyMeta(obj, h, id, keys[..|keys| - 1]);
      var key := keys[|keys| - 1];
      var v := MetaOf(h, id, key);
      assert forall k :: k in keys <==> k in keys[..|keys| - 1] || k == key;
      if v != VNull then before[key := v] else before
  }

  /** Lines 314-320: an empty type or storage after the overrides falls back to 'post_type' / 'meta'. */
  function ResetEmptyKinds(m: map<string, Value>): (r: map<string, Value>)
    ensures r.Keys == m.Keys + {"type", "storage"}
    ensures !Empty(r["type"]) && !Empty(r["storage"])
    ensures forall k :: k in m && k != "type" && k != "storage" ==> r[k] == m[k]
    ensures !Empty(Get(m, "type")) ==> r["type"] == m["type"]
    ensures !Empty(Get(m, "storage")) ==> r["storage"] == m["storage"]
    ensures Empty(Get(m, "type")) ==> r["type"] == VStr("post_type")
    ensures Empty(Get(m, "storage")) ==> r["storage"] == VStr("meta")
  {
    var m1 := if Empty(Get(m, "type")) then m["type" := VStr("post_type")] else m;
    if Empty(Get(m1, "storage")) then m1["storage" := VStr("meta")] else m1
  }

  /** Lines 297-321: meta is consulted only for a definition whose id is above 0. */
  function WithMeta(obj: map<string, Value>, h: Host): (r: map<string, Value>)
    requires "id" in obj
    ensures !IsPositive(obj["id"]) ==> r == obj
    ensures IsPositive(obj["id"]) ==> "type" in r && "storage" in r && !Empty(r["type"]) && !Empty(r["storage"])
    ensures r.Keys >= obj.Keys && r["id"] == obj["id"]
  {
    if IsPositive(obj["id"]) then
      var a := ApplyMeta(obj, h, ToInt(obj["id"]), MetaKeys);
      assert "id" !in MetaKeys && a["id"] == obj["id"];
      ResetEmptyKinds(a)
    else obj
  }

  /** Keys other than the five meta keys keep their value through the meta overrides. */
  lemma WithMetaKeeps(obj: map<string, Value>, h: Host, k: string)
    requires "id" in obj && k in obj && k !in MetaKeys
    ensures k in WithMeta(obj, h) && WithMeta(obj, h)[k] == obj[k]
  {
  }

  /** For a definition with an id above 0, a stored non-null meta value of 'object', 'alias' or 'show_in_menu' wins. */
  lemma WithMetaOverrides(obj: map<string, Value>, h: Host, k: string)
    requires "id" in obj && IsPositive(obj["id"])
    requires k == "object" || k == "alias" || k == "show_in_menu"
    requires MetaOf(h, ToInt(obj["id"]), k) != VNull
    ensures k in WithMeta(obj, h) && WithMeta(obj, h)[k] == MetaOf(h, ToInt(obj["id"]), k)
  {
    assert k in MetaKeys;
  }

  /** The result of resolving a candidate: a definition, no Pod (`false`), or a PHP fatal error. */
  datatype Outcome = Resolved(def: map<string, Value>) | NotFound | Fatal

  /** The keys a candidate contributes to the merge. */
  function CandidateFields(c: Candidate): (m: map<string, Value>)
    requires c.Post? || c.Array?
    ensures c.Post? ==> m == PostFields(c.post)
    ensures c.Array? ==> m == c.fields
  {
    if c.Post? then PostFields(c.post) else c.fields
  }

  /** Lines 263-328: a non-empty candidate becomes a definition; anything else is not found. */
  function Definition(c: Candidate, h: Host, parentId: int): (o: Outcome)
    ensures c.Crash? <==> o.Fatal?
    ensures o.Resolved? <==> c.Post? || (c.Array? && c.fields != map[])
    ensures o.Resolved? ==> "id" in o.def && "name" in o.def && "label" in o.def
  {
    match c
    case Crash => Fatal
    case Nothing => NotFound
    case Post(_) => Resolved(WithMeta(Normalise(CandidateFields(c), parentId), h))
    case Array(m) => if m == map[] then NotFound else Resolved(WithMeta(Normalise(CandidateFields(c), parentId), h))
  }

  /** The definition `init` builds from a stored Pod post. */
  function StoredDefinition(p: PostRecord, parentId: int, h: Host): map<string, Value>
  {
    WithMeta(Normalise(PostFields(p), parentId), h)
  }

  /** The object state `init` works on: the definition (`$_object`) and whether it is valid. */
  datatype PodState = PodState(obj: map<string, Value>, valid: bool)

  /** What `destroy()` leaves behind. */
  const Destroyed: PodState := PodState(map[], false)

  /** A method's answer: a PHP value, or a fatal error that ends the request. */
  datatype Reply = Returned(v: Value) | Aborted

  /** What `init` leaves and returns once an outcome is known. */
  function Settle(s: PodState, o: Outcome): (r: (PodState, Reply))
    ensures o.Resolved? ==> r == (PodState(o.def, true), Returned(Get(o.def, "id")))
    ensures o.NotFound? ==> r == (s, Returned(False))
    ensures o.Fatal? ==> r == (s, Aborted)
  {
    match o
    case Resolved(d) => (PodState(d, true), Returned(Get(d, "id")))
    case NotFound => (s, Returned(False))
    case Fatal => (s, Aborted)
  }

  /** Line 78: `init()` with no name, id 0 and no parent on a valid object reloads it by its own id. */
  predicate IsRefresh(s: PodState, name: NameArg, id: Value, parent: ParentArg)
  {
    name.NoName? && LooseZero(id) && parent == NoParent && s.valid
  }

  function InitMeasure(s: PodState, id: Value): nat
  {
    (if s.valid then 2 else 0) + (if IsPositive(id) then 1 else 0)
  }

  /**
   * Lines 69-330: the new state and the answer of `init( $name, $id, $parent )`. A refresh
   * destroys the object and follows its old id; a positive id that does not lead to a stored
   * Pod is retried by name with id 0 and NO parent (line 104).
   */
  function InitSpec(h: Host, s: PodState, name: NameArg, id: Value, parent: ParentArg): (r: (PodState, Reply))
    decreases InitMeasure(s, id)
  {
    var refresh := IsRefresh(s, name, id, parent);
    var id' := if refresh then Get(s.obj, "id") else id;
    var s' := if refresh then Destroyed else s;
    var parentId := ParentIdOf(parent);
    if IsPositive(id') then
      match IdLookup(h, id')
      case ByNameInstead =>
        PositiveIsNotZero(id);
        InitSpec(h, s', name, VInt(0), NoParent)
      case UsePost(p) => Settle(s', Definition(Post(p), h, parentId))
    else
      Settle(s', Definition(SelectCandidate(h, name, parentId), h, parentId))
  }

  // ---------------------------------------------------------------------------
  // Properties of the resolver
  // ---------------------------------------------------------------------------

  /**
   * What `init` can leave behind, starting from `s`: a loaded definition whose id it answers, or,
   * when it answers `false` or stops with a fatal error, the object as it was (or destroyed, after
   * a refresh). An object that held nothing and now holds a definition answers its id.
   */
  predicate InitShape(s: PodState, r: (PodState, Reply))
  {
    && (r.1.Returned? ==> (r.0.valid && r.1.v == Get(r.0.obj, "id")) || (r.1.v == False && (r.0 == s || r.0 == Destroyed)))
    && (r.1.Aborted? ==> r.0 == s || r.0 == Destroyed)
    && (r.0.valid && !s.valid ==> r.1 == Returned(Get(r.0.obj, "id")))
  }

  /** Settling an outcome from the state or from the destroyed state has that shape. */
  lemma SettleShape(s: PodState, s1: PodState, o: Outcome)
    requires s1 == s || s1 == Destroyed
    ensures InitShape(s, Settle(s1, o))
  {
  }

  /** Every call of `init` has that shape, through the retry by name as well. */
  lemma {:induction false} InitOutcome(h: Host, s: PodState, name: NameArg, id: Value, parent: ParentArg)
    ensures InitShape(s, InitSpec(h, s, name, id, parent))
    decreases InitMeasure(s, id)
  {
    var refresh := IsRefresh(s, name, id, parent);
    var id' := if refresh then Get(s.obj, "id") else id;
    var s1 := if refresh then Destroyed else s;
    var parentId := ParentIdOf(parent);
    if IsPositive(id') && IdLookup(h, id').ByNameInstead? {
      PositiveIsNotZero(id);
      InitOutcome(h, s1, name, VInt(0), NoParent);
    } else if IsPositive(id') {
      SettleShape(s, s1, Definition(Post(IdLookup(h, id').post), h, parentId));
    } else {
      SettleShape(s, s1, Definition(SelectCandidate(h, name, parentId), h, parentId));
    }
  }

  /** A positive id whose post is not a stored Pod is resolved as `init( $name, 0 )`: same name, id 0, parent dropped. */
  lemma IdFallbackDropsParent(h: Host, s: PodState, name: NameArg, id: Value, parent: ParentArg)
    requires IsPositive(id) && IdLookup(h, id) == ByNameInstead
    ensures InitSpec(h, s, name, id, parent) == InitSpec(h, s, name, VInt(0), NoParent)
  {
    PositiveIsNotZero(id);
  }

  /** `init` without a refresh and without a positive id resolves the candidate the name selects. */
  lemma InitByName(h: Host, s: PodState, name: NameArg, id: Value, parent: ParentArg)
    requires !IsRefresh(s, name, id, parent) && !IsPositive(id)
    ensures InitSpec(h, s, name, id, parent)
         == Settle(s, Definition(SelectCandidate(h, name, ParentIdOf(parent)), h, ParentIdOf(parent)))
  {
  }

  /** `init` without a refresh, with an id that leads to a stored Pod, resolves that post. */
  lemma InitById(h: Host, s: PodState, name: NameArg, id: Value, parent: ParentArg)
    requires !IsRefresh(s, name, id, parent) && IsPositive(id) && IdLookup(h, id).UsePost?
    ensures InitSpec(h, s, name, id, parent) == Settle(s, Definition(Post(IdLookup(h, id).post), h, ParentIdOf(parent)))
  {
  }

  /** A non-empty candidate resolves to its fields over the defaults, with meta applied. */
  lemma ResolvedCandidate(c: Candidate, h: Host, parentId: int)
    requires c.Post? || (c.Array? && c.fields != map[])
    ensures Definition(c, h, parentId) == Resolved(WithMeta(Normalise(CandidateFields(c), parentId), h))
  {
  }

  /** With no stored Pod of that name, 'user', 'media' and 'comment' give a synthetic definition of id 0 and that type. */
  lemma {:induction false} BuiltInFallback(h: Host, s: PodState, n: string, parent: ParentArg)
    requires n == "user" || n == "media" || n == "comment"
    requires (n, ParentIdOf(parent)) !in h.podsByName
    ensures var (s', r) := InitSpec(h, s, Named(n), VInt(0), parent);
      && r == Returned(VInt(0)) && s'.valid
      && s'.obj["id"] == VInt(0) && s'.obj["type"] == VStr(n) && s'.obj["name"] == VStr(n)
      && s'.obj["storage"] == VStr("meta") && s'.obj["parent_id"] == VInt(ParentIdOf(parent))
      && s'.obj["label"] == BuiltInObject(n).value["label"]
      && s'.obj["label_singular"] == BuiltInObject(n).value["label_singular"]
  {
    var pid := ParentIdOf(parent);
    var m := BuiltInObject(n).value;
    assert !IsRefresh(s, Named(n), VInt(0), parent);
    InitByName(h, s, Named(n), VInt(0), parent);
    assert SelectCandidate(h, Named(n), pid) == NameLookup(h, n, pid) == Array(m);
    ResolvedCandidate(Array(m), h, pid);
    BuiltInDefinition(n, pid, h);
  }

  /** The definition made from a core object has id 0, its own name, type and labels, and meta storage. */
  lemma BuiltInDefinition(n: string, pid: int, h: Host)
    requires n == "user" || n == "media" || n == "comment"
    ensures var m := BuiltInObject(n).value;
      var w := WithMeta(Normalise(m, pid), h);
      && w["id"] == VInt(0) && w["type"] == VStr(n) && w["name"] == VStr(n)
      && w["storage"] == VStr("meta") && w["parent_id"] == VInt(pid)
      && w["label"] == m["label"] && w["label_singular"] == m["label_singular"]
  {
    var m := BuiltInObject(n).value;
    UnsavedDefinition(m, pid, h);
  }

  /** Fields without an id, storage or parent id and with both labels set keep them over the defaults, and no meta applies. */
  lemma UnsavedDefinition(m: map<string, Value>, pid: int, h: Host)
    requires "id" !in m && "storage" !in m && "parent_id" !in m
    requires "name" in m && "type" in m && "label" in m && "label_singular" in m
    requires !StrlenZero(m["label"]) && !StrlenZero(m["label_singular"])
    ensures var w := WithMeta(Normalise(m, pid), h);
      && w["id"] == VInt(0) && w["type"] == m["type"] && w["name"] == m["name"]
      && w["storage"] == VStr("meta") && w["parent_id"] == VInt(pid)
      && w["label"] == m["label"] && w["label_singular"] == m["label_singular"]
  {
    var d := Normalise(m, pid);
    assert d["id"] == VInt(0);
    assert WithMeta(d, h) == d;
  }

  /** A stored Pod reached by its own id resolves to the definition built from that post, under the caller's parent. */
  lemma {:induction false} ResolveById(h: Host, s: PodState, name: NameArg, i: int, parent: ParentArg)
    requires i > 0 && i in h.posts
    requires h.posts[i].postType == PodPostType && h.posts[i].id == i
    ensures InitSpec(h, s, name, VInt(i), parent)
         == (PodState(StoredDefinition(h.posts[i], ParentIdOf(parent), h), true), Returned(VInt(i)))
  {
    var p := h.posts[i];
    var pid := ParentIdOf(parent);
    assert !LooseZero(VInt(i));
    assert IdLookup(h, VInt(i)) == UsePost(p);
    InitById(h, s, name, VInt(i), parent);
    ResolvedCandidate(Post(p), h, pid);
    PostDefinition(p, pid, h);
  }

  /** The definition made from a stored post keeps its id, slug, content and title and the given parent id. */
  lemma PostDefinition(p: PostRecord, pid: int, h: Host)
    ensures var w := StoredDefinition(p, pid, h);
      && "id" in w && w["id"] == VInt(p.id)
      && "name" in w && w["name"] == VStr(p.postName)
      && "description" in w && w["description"] == VStr(p.postContent)
      && "parent_id" in w && w["parent_id"] == VInt(pid)
      && "label" in w && (p.postTitle != "" ==> w["label"] == VStr(p.postTitle))
      && (p.postTitle == "" ==> w["label"] == VStr(p.postName))
  {
    var d := Normalise(PostFields(p), pid);
    PostNormalised(p, pid);
    assert StoredDefinition(p, pid, h) == WithMeta(d, h);
    PostKeysPlain();
    WithMetaKeeps(d, h, "name");
    WithMetaKeeps(d, h, "description");
    WithMetaKeeps(d, h, "parent_id");
    WithMetaKeeps(d, h, "label");
  }

  /** The columns a post row supplies are none of the five meta keys. */
  lemma PostKeysPlain()
    ensures "name" !in MetaKeys && "description" !in MetaKeys
    ensures "parent_id" !in MetaKeys && "label" !in MetaKeys
  {
  }

  lemma PostNormalised(p: PostRecord, pid: int)
    ensures var d := Normalise(PostFields(p), pid);
      && d["id"] == VInt(p.id) && d["name"] == VStr(p.postName)
      && d["description"] == VStr(p.postContent) && d["parent_id"] == VInt(pid)
      && (p.postTitle != "" ==> d["label"] == VStr(p.postTitle))
      && (p.postTitle == "" ==> d["label"] == VStr(p.postName))
  {
    var d := Normalise(PostFields(p), pid);
    assert d["parent_id"] == Defaults(pid)["parent_id"];
  }

  /** A parent id that the fields do not override ends up as the definition's `parent_id`, and nothing else depends on it. */
  lemma NormaliseParent(f: map<string, Value>, pid: int, pid': int)
    requires "parent_id" !in f
    ensures Normalise(f, pid') == Normalise(f, pid)["parent_id" := VInt(pid')]
  {
    var k: string := "parent_id";
    UpdateTwice(FixedDefaults, k, VInt(pid), VInt(pid'));
    MergeUpdate(Defaults(pid), f, k, VInt(pid'));
    WithLabelsUpdate(Defaults(pid) + f, k, VInt(pid'));
  }

  lemma UpdateTwice<K, V>(m: map<K, V>, k: K, a: V, b: V)
    ensures m[k := a][k := b] == m[k := b]
  {
  }

  lemma MergeUpdate<K, V>(d: map<K, V>, f: map<K, V>, k: K, v: V)
    requires k !in f
    ensures d[k := v] + f == (d + f)[k := v]
  {
  }

  /** Label defaulting commutes with writing a key other than the name and the two labels. */
  lemma WithLabelsUpdate(m: map<string, Value>, k: string, v: Value)
    requires "name" in m && "label" in m && "label_singular" in m
    requires k != "name" && k != "label" && k != "label_singular"
    ensures WithLabels(m[k := v]) == WithLabels(m)[k := v]
  {
  }

  /** Meta overrides commute with writing a key they do not touch. */
  lemma {:induction false} ApplyMetaUpdate(obj: map<string, Value>, h: Host, id: int, keys: seq<string>, k: string, v: Value)
    requires k !in keys
    ensures ApplyMeta(obj[k := v], h, id, keys) == ApplyMeta(obj, h, id, keys)[k := v]
  {
    if keys != [] {
      ApplyMetaUpdate(obj, h, id, keys[..|keys| - 1], k, v);
    }
  }

  /** The stored definition depends on the parent only through its `parent_id`. */
  lemma StoredDefinitionParent(p: PostRecord, pid: int, pid': int, h: Host)
    ensures StoredDefinition(p, pid', h) == StoredDefinition(p, pid, h)["parent_id" := VInt(pid')]
  {
    var f := PostFields(p);
    assert "parent_id" !in f;
    DefinitionParent(f, pid, pid', h);
  }

  /** The same for any candidate fields that do not set `parent_id` themselves. */
  lemma DefinitionParent(f: map<string, Value>, pid: int, pid': int, h: Host)
    requires "parent_id" !in f
    ensures WithMeta(Normalise(f, pid'), h) == WithMeta(Normalise(f, pid), h)["parent_id" := VInt(pid')]
  {
    var d := Normalise(f, pid);
    PostKeysPlain();
    NormaliseParent(f, pid, pid');
    WithMetaUpdate(d, h, "parent_id", VInt(pid'));
  }

  /** The meta step commutes with writing a key other than the id and the meta keys. */
  lemma WithMetaUpdate(obj: map<string, Value>, h: Host, k: string, v: Value)
    requires "id" in obj && k != "id" && k !in MetaKeys
    ensures WithMeta(obj[k := v], h) == WithMeta(obj, h)[k := v]
  {
    if IsPositive(obj["id"]) {
      var a := ApplyMeta(obj, h, ToInt(obj["id"]), MetaKeys);
      ApplyMetaUpdate(obj, h, ToInt(obj["id"]), MetaKeys, k, v);
      ResetEmptyKindsUpdate(a, k, v);
    }
  }

  /** Resetting empty kinds commutes with writing a key other than 'type' and 'storage'. */
  lemma ResetEmptyKindsUpdate(m: map<string, Value>, k: string, v: Value)
    requires k != "type" && k != "storage"
    ensures ResetEmptyKinds(m[k := v]) == ResetEmptyKinds(m)[k := v]
  {
  }

  /**
   * Refreshing a definition loaded from a stored Pod (`init()` on the valid object) loads the same
   * definition again, except that the parent id is reset to 0 because the refresh passes no parent.
   */
  lemma {:induction false} RefreshReloads(h: Host, s: PodState, name: NameArg, i: int, parent: ParentArg)
    requires i > 0 && i in h.posts
    requires h.posts[i].postType == PodPostType && h.posts[i].id == i
    ensures var first := InitSpec(h, s, name, VInt(i), parent);
      var second := InitSpec(h, first.0, NoName, VInt(0), NoParent);
      second.1 == first.1 && second.0 == PodState(first.0.obj["parent_id" := VInt(0)], true)
  {
    var p := h.posts[i];
    var pid := ParentIdOf(parent);
    ResolveById(h, s, name, i, parent);
    var s1 := PodState(StoredDefinition(p, pid, h), true);
    assert InitSpec(h, s, name, VInt(i), parent) == (s1, Returned(VInt(i)));
    PostDefinition(p, pid, h);
    // the refresh follows the stored id, with no parent
    RefreshById(h, s1, i);
    StoredDefinitionParent(p, pid, 0, h);
    assert InitSpec(h, s1, NoName, VInt(0), NoParent) == (PodState(s1.obj["parent_id" := VInt(0)], true), Returned(VInt(i)));
  }

  /** A refresh of a valid object whose id is a stored Pod reloads that Pod with parent 0. */
  lemma RefreshById(h: Host, s: PodState, i: int)
    requires s.valid && "id" in s.obj && s.obj["id"] == VInt(i)
    requires i > 0 && i in h.posts && h.posts[i].postType == PodPostType && h.posts[i].id == i
    ensures InitSpec(h, s, NoName, VInt(0), NoParent) == (PodState(StoredDefinition(h.posts[i], 0, h), true), Returned(VInt(i)))
  {
    var p := h.posts[i];
    var def := StoredDefinition(p, 0, h);
    assert IsRefresh(s, NoName, VInt(0), NoParent) && ParentIdOf(NoParent) == 0;
    assert IdLookup(h, VInt(i)) == UsePost(p);
    ResolvedCandidate(Post(p), h, 0);
    PostDefinition(p, 0, h);
    assert InitSpec(h, s, NoName, VInt(0), NoParent) == Settle(Destroyed, Resolved(def));
  }

  /** Once the id path is set aside, a string or null name never ends in a fatal error. */
  lemma {:induction false} NamesNeverAbort(h: Host, s: PodState, name: NameArg, parent: ParentArg)
    requires name.Named? || name.NoName? || name.ArrayArg?
    ensures InitSpec(h, s, name, VInt(0), parent).1 != Aborted
    decreases s.valid
  {
    if IsRefresh(s, name, VInt(0), parent) {
      var id' := Get(s.obj, "id");
      if IsPositive(id') && IdLookup(h, id').ByNameInstead? {
        NamesNeverAbort(h, Destroyed, name, NoParent);
      }
    }
  }

  /** An object whose post type is not '_pods_pod' ends in a fatal error when no id is followed. */
  lemma {:induction false} ForeignPostAborts(h: Host, s: PodState, isWPPost: bool, post: PostRecord, parent: ParentArg)
    requires post.postType != PodPostType
    ensures InitSpec(h, s, PostObject(isWPPost, post), VInt(0), parent) == (s, Aborted)
  {
  }

  /**
   * A name that begins with 'comment_' (and holds neither 'post_type_' nor 'taxonomy_', so no
   * stripping applies) and matches no Pod, core object, post type or taxonomy is not found.
   */
  lemma {:induction false} CommentPrefixNotFound(h: Host, s: PodState, n: string, parent: ParentArg)
    requires StartsWith(n, "comment_")
    requires !Occurs(n, "post_type_") && !Occurs(n, "taxonomy_")
    requires (n, ParentIdOf(parent)) !in h.podsByName
    requires n !in h.postTypes && n !in h.taxonomies
    ensures InitSpec(h, s, Named(n), VInt(0), parent) == (s, Returned(False))
  {
    assert n[..8] == "comment_";
    assert HostTypeCandidate(h, n) == Nothing;
  }

  // ---------------------------------------------------------------------------
  // Findings: the code as written at lines 103 and 132/280
  // ---------------------------------------------------------------------------

  /** As written, a stored Pod is never found by its id: the lookup falls back to the name although the post exists. */
  lemma StoredPodMissedByIdAsWritten(h: Host, i: int)
    requires i in h.posts && h.posts[i].postType == PodPostType
    ensures IdLookupAsWritten(h, VInt(i)) == ByNameInstead
    ensures IdLookup(h, VInt(i)) == UsePost(h.posts[i])
  {
  }

  /** As written, the id step never takes a post: the property read on the fetched array row is always null. */
  lemma IdAlwaysFallsBackAsWritten(h: Host, id: Value)
    ensures IdLookupAsWritten(h, id) == ByNameInstead
  {
  }

  /** As written, finding a stored Pod by name stops with a fatal error; read as a row it resolves. */
  lemma StoredPodByNameCrashesAsWritten(h: Host, n: string, parentId: int)
    requires (n, parentId) in h.podsByName
    ensures NameLookupAsWritten(h, n, parentId) == Crash
    ensures Definition(NameLookup(h, n, parentId), h, parentId).Resolved?
  {
  }
}
