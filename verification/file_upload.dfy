/**
 * The option handling of the file upload field's form template: how many files the field
 * accepts, how its current value becomes a list of attachment IDs, and which file types and
 * extensions the uploader is told to allow. The field type's own options are read under keys
 * prefixed with the field type's name (`file_format_type`, `file_limit`, `file_type`,
 * `file_allowed_extensions`).
 */
module FileUpload {
  import opened Php

  // ---------------------------------------------------------------------------
  // Reading options

  /** `pods_v( $key, $options, $fallback )`: the option when it is set, the fallback otherwise. */
  function OptionOr(options: map<string, Value>, key: string, fallback: Value): (r: Value)
    ensures Get(options, key) != VNull ==> r == Get(options, key)
    ensures Get(options, key) == VNull ==> r == fallback
    ensures fallback != VNull ==> r != VNull
  {
    if key in options && options[key] != VNull then options[key] else fallback
  }

  /** `pods_var( $key, $options, $fallback, null, true )`: an empty option also gives the fallback. */
  function StrictOptionOr(options: map<string, Value>, key: string, fallback: Value): (r: Value)
    ensures !Empty(Get(options, key)) ==> r == Get(options, key)
    ensures Empty(Get(options, key)) ==> r == fallback
    ensures !Empty(fallback) ==> !Empty(r)
  {
    if key in options && !Empty(options[key]) then options[key] else fallback
  }

  /** How many files the field accepts; 0 leaves the number open. */
  function FileLimit(fieldType: string, options: map<string, Value>): (n: int)
    ensures !LooseEqualsWord(OptionOr(options, fieldType + "_format_type", VStr("single")), "multi") ==> n == 1
  {
    if LooseEqualsWord(OptionOr(options, fieldType + "_format_type", VStr("single")), "multi") then
      ToInt(OptionOr(options, fieldType + "_limit", VInt(0)))
    else
      1
  }

  /**
   * A single-file field takes one file whatever its limit option says; a multiple-file field
   * takes as many as its limit option, read as a whole number, and no limit option at all
   * leaves the number open.
   */
  lemma FileLimitCases(fieldType: string, options: map<string, Value>, limit: int)
    ensures fieldType + "_format_type" !in options ==> FileLimit(fieldType, options) == 1
    ensures Get(options, fieldType + "_format_type") == VStr("single") ==> FileLimit(fieldType, options) == 1
    ensures Get(options, fieldType + "_format_type") == VStr("multi") && fieldType + "_limit" !in options ==>
      FileLimit(fieldType, options) == 0
    ensures (Get(options, fieldType + "_format_type") == VStr("multi") &&
             Get(options, fieldType + "_limit") == VStr(IntToString(limit))) ==>
      FileLimit(fieldType, options) == limit
    ensures (Get(options, fieldType + "_format_type") == VStr("multi") &&
             Get(options, fieldType + "_limit") == VInt(limit)) ==>
      FileLimit(fieldType, options) == limit
  {
    IntStringRoundTrip(limit);
  }

  /** `empty( $value ) ? array() : (array) $value`: a scalar becomes a one-element list. */
  function ListValue(value: Value): (r: Value)
    ensures r.VArr?
    ensures Empty(value) <==> r == VArr([])
    ensures value.VArr? ==> r == value
    ensures !value.VArr? && !Empty(value) ==> r.entries == [("0", value)]
  {
    if Empty(value) then VArr([])
    else if value.VArr? then value
    else VArr([("0", value)])
  }

  /** Turning a value into a list a second time changes nothing. */
  lemma ListValueIdempotent(value: Value)
    ensures ListValue(ListValue(value)) == ListValue(value)
  {
    if !Empty(value) && !value.VArr? {
      assert !Empty(ListValue(value));
    }
  }

  // ---------------------------------------------------------------------------
  // Presets

  /** What a preset allows: a MIME major type list and an extension list. */
  datatype Allowed = Allowed(types: string, extensions: string)

  /** The file type presets in the order the template tries them. */
  const Presets: seq<(string, Allowed)> := [
    ("images", Allowed("image", "jpg,jpeg,png,gif")),
    ("video", Allowed("video", "mpg,mov,flv,mp4")),
    ("audio", Allowed("audio", "mp3,m4a,wav,wma")),
    ("text", Allowed("text", "txt,rtx,csv,tsv")),
    ("any", Allowed("", "*"))
  ]

  /** Every preset name starts with a lower-case letter, so PHP compares it with a value by `LooseEqualsWord`. */
  predicate PresetNames()
  {
    forall i :: 0 <= i < |Presets| ==> Presets[i].0 != [] && 'a' <= Presets[i].0[0] <= 'z'
  }

  /** Preset `i` is the first, from `from` on, whose name `==` the file type option. */
  predicate FirstMatch(fileType: Value, from: nat, i: nat)
    requires PresetNames()
  {
    from <= i < |Presets| && LooseEqualsWord(fileType, Presets[i].0) &&
    forall j :: from <= j < i ==> !LooseEqualsWord(fileType, Presets[j].0)
  }

  /** The first preset whose name `==` the file type option, searched from `from` on. */
  function PresetFrom(fileType: Value, from: nat): (r: Option<Allowed>)
    requires PresetNames()
    ensures r.None? <==> forall i :: from <= i < |Presets| ==> !LooseEqualsWord(fileType, Presets[i].0)
    ensures r.Some? ==> exists i: nat :: FirstMatch(fileType, from, i) && r.value == Presets[i].1
    decreases |Presets| - from
  {
    if from >= |Presets| then None
    else if LooseEqualsWord(fileType, Presets[from].0) then Some(Presets[from].1)
    else PresetFrom(fileType, from + 1)
  }

  /** The `if`/`elseif` chain over the presets; `None` is the custom extension list. */
  function Preset(fileType: Value): (r: Option<Allowed>)
    requires PresetNames()
    ensures r.None? <==> forall i :: 0 <= i < |Presets| ==> !LooseEqualsWord(fileType, Presets[i].0)
    ensures r.Some? ==> exists i: nat :: FirstMatch(fileType, 0, i) && r.value == Presets[i].1
  {
    PresetFrom(fileType, 0)
  }

  /**
   * Each preset name selects its own preset, and no other text does: any other file type
   * option is the custom case.
   */
  lemma PresetByName(name: string)
    requires PresetNames()
    ensures forall i :: 0 <= i < |Presets| && name == Presets[i].0 ==> Preset(VStr(name)) == Some(Presets[i].1)
    ensures (forall i :: 0 <= i < |Presets| ==> name != Presets[i].0) <==> Preset(VStr(name)).None?
  {
    if i :| 0 <= i < |Presets| && name == Presets[i].0 {
      assert LooseEqualsWord(VStr(name), Presets[i].0);
      var r := Preset(VStr(name));
      assert r.Some?;
      var k: nat :| FirstMatch(VStr(name), 0, k) && r.value == Presets[k].1;
      assert k < |Presets| && LooseEqualsWord(VStr(name), Presets[k].0);
      PresetNamesDistinct();
      forall j | 0 <= j < |Presets| && name == Presets[j].0
        ensures j == k
      {
      }
    }
  }

  /** No two presets share a name. */
  lemma PresetNamesDistinct()
    ensures forall i, j :: 0 <= i < j < |Presets| ==> Presets[i].0 != Presets[j].0
  {
  }

  /** Under PHP 7 a file type option of `0` or `true` loosely equals "images" and selects that preset. */
  lemma PresetLooseMatch()
    requires PresetNames()
    ensures Preset(VInt(0)) == Some(Allowed("image", "jpg,jpeg,png,gif"))
    ensures Preset(VBool(true)) == Some(Allowed("image", "jpg,jpeg,png,gif"))
    ensures Preset(VInt(3)).None? && Preset(False).None? && Preset(VArr([])).None?
  {
  }

  // ---------------------------------------------------------------------------
  // Scrubbing a list of extensions

  /**
   * `str_replace( array( ' ', '.', "\n", "\t", ';' ), array( '', ',', ',', ',' ), $s )`: each
   * search string in turn; the fifth has no replacement, so ';' is removed. What is left is the
   * input without its spaces and semicolons, with every '.', newline and tab turned into a comma
   * in place.
   */
  function ReplaceSeparators(s: string): (r: string)
    ensures ' ' !in r && '.' !in r && '\n' !in r && '\t' !in r && ';' !in r
    ensures Drop(r, Separators) == Drop(s, Separators)
    ensures Converted(r, Drop(s, {' ', ';'}))
  {
    var s1 := ReplaceChar(s, ' ', "");
    var s2 := ReplaceChar(s1, '.', ",");
    var s3 := ReplaceChar(s2, '\n', ",");
    var s4 := ReplaceChar(s3, '\t', ",");
    var r := ReplaceChar(s4, ';', "");
    ReplaceDrop(s, ' ', "", Separators);
    ReplaceDrop(s1, '.', ",", Separators);
    ReplaceDrop(s2, '\n', ",", Separators);
    ReplaceDrop(s3, '\t', ",", Separators);
    ReplaceDrop(s4, ';', "", Separators);
    CommasInPlace(s1);
    DropConverted(s4, s1);
    DropTwice(s, {' '}, {';'});
    assert {' '} + {';'} == {' ', ';'};
    r
  }

  /** The character a separator other than the comma becomes: '.', newline and tab become ','. */
  function Convert(c: char): char
  {
    if c == '.' || c == '\n' || c == '\t' then ',' else c
  }

  /** `u` is `t` with `Convert` applied at every position. */
  predicate Converted(u: string, t: string)
  {
    |u| == |t| && forall i :: 0 <= i < |t| ==> u[i] == Convert(t[i])
  }

  /** The three one-character replacements in a row convert the string in place. */
  lemma CommasInPlace(s1: string)
    ensures Converted(ReplaceChar(ReplaceChar(ReplaceChar(s1, '.', ","), '\n', ","), '\t', ","), s1)
  {
    var s2 := ReplaceChar(s1, '.', ",");
    var s3 := ReplaceChar(s2, '\n', ",");
    ReplaceCharInPlace(s1, '.', ",");
    ReplaceCharInPlace(s2, '\n', ",");
    ReplaceCharInPlace(s3, '\t', ",");
  }

  /** Removing ';' commutes with the conversion, which neither makes nor removes a ';'. */
  lemma {:induction false} DropConverted(u: string, t: string)
    requires Converted(u, t)
    ensures Converted(Drop(u, {';'}), Drop(t, {';'}))
  {
    if t != [] {
      assert Converted(u[1..], t[1..]);
      DropConverted(u[1..], t[1..]);
      var du := Drop(u[1..], {';'});
      var dt := Drop(t[1..], {';'});
      if t[0] != ';' {
        assert Drop(u, {';'}) == [u[0]] + du;
        assert Drop(t, {';'}) == [t[0]] + dt;
      }
    }
  }

  /** The separators a user may type between extensions, other than the comma. */
  predicate IsStraySeparator(c: char)
  {
    c == ' ' || c == '.' || c == '\n' || c == '\t' || c == ';'
  }

  /** Every character that separates extensions, the comma included. */
  const Separators: set<char> := {' ', '.', '\n', '\t', ';', ','}

  /** A list as the template hands it on: only commas separate, and none at either end. */
  predicate Scrubbed(s: string)
  {
    (forall i :: 0 <= i < |s| ==> !IsStraySeparator(s[i])) &&
    (s != [] ==> s[0] != ',' && s[|s| - 1] != ',')
  }

  /**
   * `r` is the converted `d` from position `i` on, and every character of `d` around it converts
   * to a comma.
   */
  predicate ConvertedSlice(r: string, d: string, i: nat)
  {
    && i + |r| <= |d|
    && (forall k :: 0 <= k < i ==> Convert(d[k]) == ',')
    && (forall k :: 0 <= k < |r| ==> r[k] == Convert(d[i + k]))
    && (forall k :: i + |r| <= k < |d| ==> Convert(d[k]) == ',')
  }

  /**
   * `trim( str_replace( ... ), ',' )`: separated by commas only, with what lies between the
   * separators of the input kept in order. Position by position, the result is the input without
   * spaces and semicolons, converted, with the run of commas at either end cut off.
   */
  function Scrub(s: string): (r: string)
    ensures Scrubbed(r)
    ensures Drop(r, {','}) == Drop(s, Separators)
    ensures exists i :: ConvertedSlice(r, Drop(s, {' ', ';'}), i)
  {
    var t := ReplaceSeparators(s);
    TrimScrubbed(t);
    TrimDrop(t, ',', {','});
    DropMore(t, {','}, Separators);
    assert {','} + Separators == Separators;
    TrimConverted(t, Drop(s, {' ', ';'}));
    Trim(t, ',')
  }

  /** Trimming a converted string cuts a converted slice out of the original. */
  lemma TrimConverted(u: string, d: string)
    requires Converted(u, d)
    ensures ConvertedSlice(Trim(u, ','), d, LeadingRun(u, ','))
  {
  }

  lemma TrimScrubbed(t: string)
    requires ' ' !in t && '.' !in t && '\n' !in t && '\t' !in t && ';' !in t
    ensures Scrubbed(Trim(t, ','))
  {
    var r := Trim(t, ',');
    forall i | 0 <= i < |r|
      ensures !IsStraySeparator(r[i])
    {
      assert r[i] in t;
    }
  }

  /** Scrubbing keeps every character that is not a separator, and adds none of its own. */
  lemma ScrubKeeps(s: string, c: char)
    requires c in Scrub(s) && c != ','
    ensures c in s
  {
    var s1 := ReplaceChar(s, ' ', "");
    var s2 := ReplaceChar(s1, '.', ",");
    var s3 := ReplaceChar(s2, '\n', ",");
    var s4 := ReplaceChar(s3, '\t', ",");
    assert c in ReplaceChar(s4, ';', "");
    assert c !in "" && c !in ",";
  }

  /** A scrubbed list is left alone; in particular scrubbing twice is scrubbing once. */
  lemma ScrubStable(s: string)
    requires Scrubbed(s)
    ensures Scrub(s) == s
  {
    assert ' ' !in s && '.' !in s && '\n' !in s && '\t' !in s && ';' !in s by {
      forall i | 0 <= i < |s|
        ensures !IsStraySeparator(s[i])
      {
      }
    }
    assert ReplaceSeparators(s) == s;
    TrimUntouched(s, ',');
  }

  lemma ScrubIdempotent(s: string)
    ensures Scrub(Scrub(s)) == Scrub(s)
  {
    ScrubStable(Scrub(s));
  }

  /** Both lists of a preset are already in the form scrubbing gives. */
  predicate CleanPreset(i: nat)
    requires i < |Presets|
  {
    Scrubbed(Presets[i].1.types) && Scrubbed(Presets[i].1.extensions)
  }

  lemma ImagesPresetClean()
    ensures CleanPreset(0)
  {
    assert Presets[0].1 == Allowed("image", "jpg,jpeg,png,gif");
  }

  lemma VideoPresetClean()
    ensures CleanPreset(1)
  {
    assert Presets[1].1 == Allowed("video", "mpg,mov,flv,mp4");
  }

  lemma AudioPresetClean()
    ensures CleanPreset(2)
  {
    assert Presets[2].1 == Allowed("audio", "mp3,m4a,wav,wma");
  }

  lemma TextPresetClean()
    ensures CleanPreset(3)
  {
    assert Presets[3].1 == Allowed("text", "txt,rtx,csv,tsv");
  }

  lemma AnyPresetClean()
    ensures CleanPreset(4)
  {
    assert Presets[4].1 == Allowed("", "*");
  }

  /** Scrubbing leaves every preset as it is. */
  lemma PresetScrubbed(i: nat)
    requires i < |Presets|
    ensures Scrub(Presets[i].1.types) == Presets[i].1.types
    ensures Scrub(Presets[i].1.extensions) == Presets[i].1.extensions
  {
    if i == 0 {
      ImagesPresetClean();
    } else if i == 1 {
      VideoPresetClean();
    } else if i == 2 {
      AudioPresetClean();
    } else if i == 3 {
      TextPresetClean();
    } else {
      AnyPresetClean();
    }
    ScrubStable(Presets[i].1.types);
    ScrubStable(Presets[i].1.extensions);
  }

  // ---------------------------------------------------------------------------
  // Collapsing extensions to MIME major types

  /** `wp_get_mime_types()`: extension patterns such as "jpg|jpeg|jpe" with their MIME types, in order. */
  type MimeTable = seq<(string, string)>

  /** `$mime_types[ $token ]` when it is set. */
  function MimeOf(table: MimeTable, token: string): (r: Option<string>)
    ensures r.Some? ==> exists i :: 0 <= i < |table| && table[i] == (token, r.value)
    ensures r.None? ==> forall i :: 0 <= i < |table| ==> table[i].0 != token
  {
    if table == [] then None
    else if table[0].0 == token then Some(table[0].1)
    else MimeOf(table[1..], token)
  }

  /** `explode( '/', $mime )[0]`: the major type. */
  function Major(mime: string): string
  {
    BeforeFirst('/', mime)
  }

  /** Entry `i` of the table has the token inside its extension pattern. */
  predicate Matches(table: MimeTable, token: string, i: int)
  {
    0 <= i < |table| && StrPosFound(table[i].0, token)
  }

  /** The token is either a key of the table or part of one. */
  ghost predicate Known(table: MimeTable, token: string)
  {
    MimeOf(table, token).Some? || exists i :: Matches(table, token, i)
  }

  /**
   * `x` is what the loop body adds for `token`: the major type of the token's own entry; failing
   * that, the major type of every entry whose pattern contains it; failing that, the token.
   */
  ghost predicate Contributes(table: MimeTable, token: string, x: string)
  {
    match MimeOf(table, token)
    case Some(mime) => x == Major(mime)
    case None =>
      (exists i :: Matches(table, token, i) && x == Major(table[i].1)) ||
      ((forall i :: !Matches(table, token, i)) && x == token)
  }

  predicate NoDuplicates(s: seq<string>)
  {
    forall i, j :: 0 <= i < j < |s| ==> s[i] != s[j]
  }

  /** `if ( !in_array( $m, $list ) ) $list[] = $m;` */
  function AddNew(list: seq<string>, m: string): (r: seq<string>)
    ensures m in list ==> r == list
    ensures m !in list ==> r == list + [m]
    ensures |r| <= |list| + 1
    ensures list <= r && m in r
    ensures forall x :: x in r ==> x in list || x == m
    ensures NoDuplicates(list) ==> NoDuplicates(r)
  {
    if m in list then list else list + [m]
  }

  /** The inner `foreach` over the first `|table|` entries: the list so far and the `$found` flag. */
  function MatchAll(table: MimeTable, token: string, list: seq<string>): (r: (seq<string>, bool))
    ensures list <= r.0
    ensures !r.1 ==> r.0 == list
    ensures NoDuplicates(list) ==> NoDuplicates(r.0)
  {
    if table == [] then (list, false)
    else
      var before := MatchAll(table[..|table| - 1], token, list);
      var last := table[|table| - 1];
      if StrPosFound(last.0, token) then (AddNew(before.0, Major(last.1)), true) else before
  }

  /** The inner loop finds exactly the entries that contain the token and adds exactly their major types. */
  lemma {:induction false} MatchAllMeaning(table: MimeTable, token: string, list: seq<string>)
    ensures MatchAll(table, token, list).1 <==> exists i :: Matches(table, token, i)
    ensures forall i :: Matches(table, token, i) ==> Major(table[i].1) in MatchAll(table, token, list).0
    ensures forall x :: x in MatchAll(table, token, list).0 ==>
      x in list || exists i :: Matches(table, token, i) && x == Major(table[i].1)
  {
    if table != [] {
      var front := table[..|table| - 1];
      MatchAllMeaning(front, token, list);
      var n := |table| - 1;
      forall i | Matches(front, token, i) ensures Matches(table, token, i) { }
      forall i | Matches(table, token, i) && i < n ensures Matches(front, token, i) { }
      if StrPosFound(table[n].0, token) {
        assert Matches(table, token, n);
      }
    }
  }

  /** What one token does to the list: the body of the outer `foreach`. */
  function CollapseToken(table: MimeTable, token: string, list: seq<string>): (r: seq<string>)
    ensures list <= r && r != []
  {
    match MimeOf(table, token)
    case Some(mime) => AddNew(list, Major(mime))
    case None =>
      var (after, found) := MatchAll(table, token, list);
      if found then (MatchAllMeaning(table, token, list); after) else list + [token]
  }

  /** The outer `foreach` over the tokens, from an empty list. */
  function Collapse(table: MimeTable, tokens: seq<string>): (r: seq<string>)
    ensures tokens != [] ==> r != []
  {
    if tokens == [] then []
    else CollapseToken(table, tokens[|tokens| - 1], Collapse(table, tokens[..|tokens| - 1]))
  }

  /** A token changes the list by exactly what it contributes. */
  lemma CollapseTokenMeaning(table: MimeTable, token: string, list: seq<string>)
    ensures forall x :: Contributes(table, token, x) ==> x in CollapseToken(table, token, list)
    ensures forall x :: x in CollapseToken(table, token, list) ==> x in list || Contributes(table, token, x)
    ensures Known(table, token) && NoDuplicates(list) ==> NoDuplicates(CollapseToken(table, token, list))
  {
    MatchAllMeaning(table, token, list);
  }

  /**
   * The collapsed list holds exactly what the tokens contribute: every contribution of every
   * token is in it, and everything in it is some token's contribution.
   */
  lemma {:induction false} CollapseMeaning(table: MimeTable, tokens: seq<string>)
    ensures forall j, x :: 0 <= j < |tokens| && Contributes(table, tokens[j], x) ==> x in Collapse(table, tokens)
    ensures forall x :: x in Collapse(table, tokens) ==> exists j :: 0 <= j < |tokens| && Contributes(table, tokens[j], x)
  {
    if tokens != [] {
      var n := |tokens| - 1;
      var front := tokens[..n];
      CollapseMeaning(table, front);
      CollapseTokenMeaning(table, tokens[n], Collapse(table, front));
      assert Collapse(table, tokens) == CollapseToken(table, tokens[n], Collapse(table, front));
      forall j, x | 0 <= j < |tokens| && Contributes(table, tokens[j], x)
        ensures x in Collapse(table, tokens)
      {
        if j < n {
          assert front[j] == tokens[j];
          assert x in Collapse(table, front);
        }
      }
      forall x | x in Collapse(table, tokens)
        ensures exists j :: 0 <= j < |tokens| && Contributes(table, tokens[j], x)
      {
        if x in Collapse(table, front) {
          var j :| 0 <= j < n && Contributes(table, front[j], x);
          assert front[j] == tokens[j];
        }
      }
    }
  }

  /** When every token is an extension the table knows, no major type is listed twice. */
  lemma {:induction false} CollapseNoDuplicates(table: MimeTable, tokens: seq<string>)
    requires forall j :: 0 <= j < |tokens| ==> Known(table, tokens[j])
    ensures NoDuplicates(Collapse(table, tokens))
  {
    if tokens != [] {
      var n := |tokens| - 1;
      assert forall j :: 0 <= j < n ==> tokens[..n][j] == tokens[j];
      CollapseNoDuplicates(table, tokens[..n]);
      CollapseTokenMeaning(table, tokens[n], Collapse(table, tokens[..n]));
    }
  }

  /** Later tokens only append: the list for a prefix of the tokens is a prefix of the whole list. */
  lemma {:induction false} CollapseGrows(table: MimeTable, tokens: seq<string>, k: nat)
    requires k <= |tokens|
    ensures Collapse(table, tokens[..k]) <= Collapse(table, tokens)
    decreases |tokens|
  {
    if k < |tokens| {
      var n := |tokens| - 1;
      assert tokens[..n][..k] == tokens[..k];
      CollapseGrows(table, tokens[..n], k);
      var before, whole := Collapse(table, tokens[..n]), Collapse(table, tokens);
      assert whole == CollapseToken(table, tokens[n], before);
      assert before == whole[..|before|];
    } else {
      assert tokens[..k] == tokens;
    }
  }

  /**
   * The template's two nested `foreach` loops over the tokens and the MIME table, building
   * `$new_limit_types`.
   */
  method CollapseLimitTypes(table: MimeTable, tokens: seq<string>) returns (types: seq<string>)
    ensures types == Collapse(table, tokens)
  {
    types := [];
    for j := 0 to |tokens|
      invariant types == Collapse(table, tokens[..j])
    {
      var token := tokens[j];
      var listed := MimeOf(table, token);
      if listed.Some? {
        var mime := Major(listed.value);
        if mime !in types {
          types := types + [mime];
        }
      } else {
        var start := types;
        var found := false;
        for i := 0 to |table|
          invariant (types, found) == MatchAll(table[..i], token, start)
        {
          if StrPosFound(table[i].0, token) {
            var mime := Major(table[i].1);
            if mime !in types {
              types := types + [mime];
            }
            found := true;
          }
          assert table[..i + 1][..i] == table[..i];
        }
        assert table[..|table|] == table;
        if !found {
          types := types + [token];
        }
      }
      assert tokens[..j + 1][..j] == tokens[..j];
    }
    assert tokens[..|tokens|] == tokens;
  }

  // ---------------------------------------------------------------------------
  // The options handed to the uploader

  /** The custom case: both lists scrubbed, the types collapsed to MIME major types. */
  function CustomAllowed(listed: string, table: MimeTable): (r: Allowed)
    ensures r.extensions == Scrub(listed)
    ensures Scrubbed(r.extensions) && Drop(r.extensions, {','}) == Drop(listed, Separators)
    ensures r.types == Implode(',', Collapse(table, Explode(',', r.extensions)))
  {
    var clean := Scrub(listed);
    Allowed(Implode(',', Collapse(table, Explode(',', clean))), clean)
  }

  /** `$options['limit_types']` and `$options['limit_extensions']` as lines 72-142 leave them. */
  function UploadLimits(fieldType: string, options: map<string, Value>, table: MimeTable): (r: Allowed)
    requires PresetNames()
    ensures Scrubbed(r.extensions)
  {
    var fileType := OptionOr(options, fieldType + "_type", VStr("images"));
    match Preset(fileType)
    case Some(p) => Allowed(Scrub(p.types), Scrub(p.extensions))
    case None => CustomAllowed(ToStr(StrictOptionOr(options, fieldType + "_allowed_extensions", VStr(""))), table)
  }

  /** A file type option naming a preset hands the uploader that preset's lists unchanged. */
  lemma PresetLimits(fieldType: string, options: map<string, Value>, table: MimeTable, i: nat)
    requires PresetNames()
    requires i < |Presets| && OptionOr(options, fieldType + "_type", VStr("images")) == VStr(Presets[i].0)
    ensures UploadLimits(fieldType, options, table) == Presets[i].1
  {
    PresetByName(Presets[i].0);
    PresetScrubbed(i);
  }

  /** Without a file type option the field takes images; the "any" preset allows every extension. */
  lemma DefaultAndAnyLimits(fieldType: string, options: map<string, Value>, table: MimeTable)
    requires PresetNames()
    ensures fieldType + "_type" !in options ==>
      UploadLimits(fieldType, options, table) == Allowed("image", "jpg,jpeg,png,gif")
    ensures Get(options, fieldType + "_type") == VStr("any") ==>
      UploadLimits(fieldType, options, table) == Allowed("", "*")
  {
    if fieldType + "_type" !in options {
      PresetLimits(fieldType, options, table, 0);
    }
    if Get(options, fieldType + "_type") == VStr("any") {
      PresetLimits(fieldType, options, table, 4);
    }
  }

  /**
   * In the custom case the extension list is the scrubbed option, and the type list names, in
   * order of first appearance, what each extension contributes and nothing else.
   */
  lemma CustomLimits(fieldType: string, options: map<string, Value>, table: MimeTable, listed: string)
    requires PresetNames()
    requires Preset(OptionOr(options, fieldType + "_type", VStr("images"))).None?
    requires listed == ToStr(StrictOptionOr(options, fieldType + "_allowed_extensions", VStr("")))
    ensures UploadLimits(fieldType, options, table).extensions == Scrub(listed)
    ensures var tokens := Explode(',', Scrub(listed));
      UploadLimits(fieldType, options, table).types == Implode(',', Collapse(table, tokens)) &&
      (forall j, x :: 0 <= j < |tokens| && Contributes(table, tokens[j], x) ==> x in Collapse(table, tokens)) &&
      (forall x :: x in Collapse(table, tokens) ==> exists j :: 0 <= j < |tokens| && Contributes(table, tokens[j], x))
  {
    CollapseMeaning(table, Explode(',', Scrub(listed)));
  }

  /** An empty custom list stays empty: its one empty token is not found and is kept as it is. */
  lemma EmptyCustomList(table: MimeTable)
    requires forall i :: 0 <= i < |table| ==> table[i].0 != ""
    ensures CustomAllowed("", table) == Allowed("", "")
  {
    assert Scrub("") == "" by {
      TrimUntouched("", ',');
    }
    assert Explode(',', "") == [""];
    assert MimeOf(table, "").None?;
    MatchAllMeaning(table, "", []);
    assert !MatchAll(table, "", []).1;
    assert [""][..0] == [];
    assert Collapse(table, [""]) == [""];
  }

  /** Lines 72-139: the preset or the scrubbed custom lists, the custom types collapsed by the two loops. */
  method Limits(fieldType: string, options: map<string, Value>, table: MimeTable) returns (types: string, extensions: string)
    requires PresetNames()
    ensures Allowed(types, extensions) == UploadLimits(fieldType, options, table)
  {
    var fileType := OptionOr(options, fieldType + "_type", VStr("images"));
    var preset := Preset(fileType);
    if preset.Some? {
      types, extensions := preset.value.types, preset.value.extensions;
    } else {
      types := ToStr(StrictOptionOr(options, fieldType + "_allowed_extensions", VStr("")));
      extensions := types;
    }
    types := Scrub(types);
    extensions := Scrub(extensions);
    if preset.None? {
      var collapsed := CollapseLimitTypes(table, Explode(',', types));
      if collapsed != [] {
        types := Implode(',', collapsed);
      }
    }
  }

  /**
   * What the template computes from its options and value at lines 33-44 and 72-142: the file
   * limit, the value as a list, and the options with the two uploader limits set.
   */
  method PrepareUpload(fieldType: string, options: map<string, Value>, value: Value, table: MimeTable)
    returns (fileLimit: int, files: Value, limited: map<string, Value>)
    requires PresetNames()
    ensures fileLimit == FileLimit(fieldType, options)
    ensures files == ListValue(value)
    ensures var r := UploadLimits(fieldType, options, table);
      limited == options["limit_types" := VStr(r.types)]["limit_extensions" := VStr(r.extensions)]
  {
    fileLimit := 1;
    if LooseEqualsWord(OptionOr(options, fieldType + "_format_type", VStr("single")), "multi") {
      fileLimit := ToInt(OptionOr(options, fieldType + "_limit", VInt(0)));
    }

    if Empty(value) {
      files := VArr([]);
    } else if value.VArr? {
      files := value;
    } else {
      files := VArr([("0", value)]);
    }

    var types, extensions := Limits(fieldType, options, table);
    limited := options["limit_types" := VStr(types)]["limit_extensions" := VStr(extensions)];
  }
}
