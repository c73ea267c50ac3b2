/**
 * What the Pod class reads from WordPress and what it asks of the Pods API, as plain data.
 * WordPress answers are snapshots held in `Host`; calls into `pods_api()` are recorded as
 * `ApiCall` values, and what such a call answers is handed to the model by its caller.
 */
module WpHost {
  import opened Php

  /** The internal post type under which Pod definitions are stored. */
  const PodPostType: string := "_pods_pod"

  /** A row of the posts table, as `get_post( $id, ARRAY_A )` or a `WP_Post` carries it. */
  datatype PostRecord = PostRecord(
    id: int,
    postType: string,
    postName: string,
    postTitle: string,
    postContent: string)

  /** A snapshot of the WordPress state the resolver consults. */
  datatype Host = Host(
    // get_post( $id, ARRAY_A ): the post with that ID, if there is one
    posts: map<int, PostRecord>,
    // get_posts( name, post type _pods_pod, post_parent, one result ): the first hit
    podsByName: map<(string, int), PostRecord>,
    // get_post_type_object( $name )->labels, as get_object_vars gives them
    postTypes: map<string, map<string, Value>>,
    // get_taxonomy( $name )->labels, as get_object_vars gives them
    taxonomies: map<string, map<string, Value>>,
    // $this->_meta( $key, $id, true ) for the stored values; anything else reads as null
    meta: map<(int, string), Value>)

  /** The post as `get_post( $id, ARRAY_A )` answers it: an array keyed by the posts table's column names. */
  function PostRow(p: PostRecord): (r: Value)
    ensures r.VArr? && !Empty(r)
    ensures RowValue(r, "ID") == VInt(p.id)
    ensures RowValue(r, "post_type") == VStr(p.postType)
  {
    var e := [("ID", VInt(p.id)), ("post_type", VStr(p.postType)), ("post_name", VStr(p.postName)),
              ("post_title", VStr(p.postTitle)), ("post_content", VStr(p.postContent))];
    assert Lookup(e[1..], "post_type") == Some(VStr(p.postType));
    VArr(e)
  }

  /** `$row[ $key ]` on what `get_post( ..., ARRAY_A )` answers: a column of an array row; null has none. */
  function RowValue(row: Value, key: string): (v: Value)
    ensures !row.VArr? ==> v == VNull
    ensures row.VArr? && Lookup(row.entries, key).Some? ==> v == Lookup(row.entries, key).value
  {
    if row.VArr? then
      match Lookup(row.entries, key)
      case Some(x) => x
      case None => VNull
    else VNull
  }

  /** The post with that ID, if there is one. */
  function PostWithId(h: Host, id: int): (r: Option<PostRecord>)
    ensures r.Some? <==> id in h.posts
    ensures r.Some? ==> r.value == h.posts[id]
  {
    if id in h.posts then Some(h.posts[id]) else None
  }

  /** `get_post( $id, ARRAY_A )`: the row of the post with that ID, or null when there is none. */
  function FetchedRow(h: Host, id: int): (row: Value)
    ensures Empty(row) <==> id !in h.posts
    ensures id in h.posts ==> row == PostRow(h.posts[id])
  {
    if id in h.posts then PostRow(h.posts[id]) else VNull
  }

  /** `$this->_meta( $key, $id, true )`. */
  function MetaOf(h: Host, id: int, key: string): (v: Value)
    ensures (id, key) !in h.meta ==> v == VNull
    ensures (id, key) in h.meta ==> v == h.meta[(id, key)]
  {
    if (id, key) in h.meta then h.meta[(id, key)] else VNull
  }

  /** One call into `pods_api()`, with the arguments the class passed. */
  datatype ApiCall =
    | SavePod(params: map<string, Value>)
    | DuplicatePod(params: map<string, Value>)
    | DeletePod(params: map<string, Value>)
    | GetTableInfo(podType: Value, podObject: Value, podName: Value, definition: map<string, Value>)
    | GetWpObjectFields(podType: Value, definition: map<string, Value>)
}
