/** A select call's arguments checked against a schema pack: JSON flattened to path strings, and read back by path. */
module Arguments {
  import opened Text

  /** Parsed JSON. A number stands for any scalar that is neither text nor null. */
  datatype Json = Obj(fields: Fields) | Arr(items: Items) | Str(text: string) | Num(n: int) | Null

  /** An object's entries in the order they were sent. */
  datatype Fields = NoFields | Field(key: string, value: Json, more: Fields)

  datatype Items = NoItems | Item(head: Json, rest: Items)

  /** Whether `part` occurs in `s`. */
  predicate Contains(s: string, part: string) { part <= s || (s != "" && Contains(s[1..], part)) }

  predicate LooksLikePath(s: string) { Contains(s, ".") || Contains(s, "[]") }

  // ---------------------------------------------------------------- flattening, as strings

  function FlattenFields(fs: Fields, prefix: string, stop: seq<string>): seq<string> {
    match fs
    case NoFields => []
    case Field(key, value, more) =>
      var path := prefix + key;
      (if LooksLikePath(path) && path in stop then [path] else FlattenValue(value, path, stop))
      + FlattenFields(more, prefix, stop)
  }

  /** `_flatten`: every leaf path, each once. */
  function Flatten(fs: Fields, prefix: string, stop: seq<string>): seq<string> {
    FirstSeen(FlattenFields(fs, prefix, stop))
  }

  function FlattenValue(v: Json, path: string, stop: seq<string>): seq<string> {
    match v
    case Obj(fs) => FirstSeen(FlattenFields(fs, path + ".", stop))
    case Arr(items) =>
      var nested := FlattenItems(items, path, stop);
      if nested == [] then [path] else nested
    case _ => [path]
  }

  function FlattenItems(items: Items, path: string, stop: seq<string>): seq<string> {
    match items
    case NoItems => []
    case Item(head, rest) =>
      FlattenValue(head, if head.Obj? then path + "[]" else path, stop) + FlattenItems(rest, path, stop)
  }

  // ---------------------------------------------------------------- reading back, as strings

  function Get(fs: Fields, key: string): Option<Json> {
    match fs
    case NoFields => None
    case Field(k, v, more) => if k == key then Some(v) else Get(more, key)
  }

  predicate EndsInBrackets(s: string) { |s| >= 2 && s[|s| - 2..] == "[]" }

  /** `_value_at`. A value that is not there reads as null. */
  function ValueAt(data: Json, path: string): Json
    decreases |path|, 0, NoItems
  {
    if path == "" then data
    else
      var dot := IndexOf(path, '.');
      var head := path[..dot];
      var tail := if dot < |path| then path[dot + 1..] else "";
      if EndsInBrackets(head) then
        var container := if data.Obj? then Get(data.fields, head[..|head| - 2]) else None;
        if container.Some? && container.value.Arr? then Arr(ValuesAt(container.value.items, tail)) else Null
      else if !data.Obj? || Get(data.fields, head).None? then Null
      else if tail != "" then ValueAt(Get(data.fields, head).value, tail)
      else Get(data.fields, head).value
  }

  function ValuesAt(items: Items, path: string): Items
    decreases |path|, 1, items
  {
    match items
    case NoItems => NoItems
    case Item(head, rest) => Item(ValueAt(head, path), ValuesAt(rest, path))
  }

  // ---------------------------------------------------------------- validation

  datatype Schema = Schema(filterable: seq<string>, types: map<string, string>, enums: map<string, seq<string>>)

  function TypeOf(schema: Schema, path: string): string { if path in schema.types then schema.types[path] else "" }

  function EnumOf(schema: Schema, path: string): seq<string> { if path in schema.enums then schema.enums[path] else [] }

  /** `_check_is_array` and `_check_is_object`, for each field. */
  predicate ShapesAllowed(fs: Fields, schema: Schema) {
    match fs
    case NoFields => true
    case Field(key, value, more) =>
      && ("array" <= TypeOf(schema, key) ==> value.Arr?)
      && (TypeOf(schema, key) == "object" ==> value.Obj?)
      && ShapesAllowed(more, schema)
  }

  /** `key` is sent with this value. */
  predicate Sent(fs: Fields, key: string, v: Json) {
    fs.Field? && ((fs.key == key && fs.value == v) || Sent(fs.more, key, v))
  }

  /** Where the pack says array a list is sent, and where it says object an object. */
  lemma {:induction false} ShapesAre(fs: Fields, schema: Schema)
    ensures ShapesAllowed(fs, schema) <==>
            forall key, v | Sent(fs, key, v) && key in schema.types ::
              && (|schema.types[key]| >= 5 && schema.types[key][..5] == "array" ==> v.Arr?)
              && (schema.types[key] == "object" ==> v.Obj?)
  {
    if fs.Field? {
      ShapesAre(fs.more, schema);
      assert Sent(fs, fs.key, fs.value);
    }
  }

  predicate Listed(allowed: seq<string>, v: Json) { v.Str? && v.text in allowed }

  predicate AllListed(allowed: seq<string>, items: Items) {
    match items
    case NoItems => true
    case Item(head, rest) => Listed(allowed, head) && AllListed(allowed, rest)
  }

  /** What is read is listed, or is a list of nothing else. */
  predicate Passes(allowed: seq<string>, v: Json) { if v.Arr? then AllListed(allowed, v.items) else Listed(allowed, v) }

  /** `_check_is_allowed` */
  predicate IsAllowed(schema: Schema, path: string, v: Json) {
    EnumOf(schema, path) == [] || Passes(EnumOf(schema, path), v)
  }

  predicate NoPathKeys(fs: Fields) {
    match fs
    case NoFields => true
    case Field(key, _, more) => !LooksLikePath(key) && NoPathKeys(more)
  }

  predicate HasKey(fs: Fields, key: string) { fs.Field? && (fs.key == key || HasKey(fs.more, key)) }

  /** No key of the body itself has a dot or a list mark in it. */
  lemma {:induction false} NoKeyIsPath(fs: Fields)
    ensures NoPathKeys(fs) <==> forall key | HasKey(fs, key) :: !LooksLikePath(key)
  {
    hide LooksLikePath;
    if fs.Field? {
      NoKeyIsPath(fs.more);
      assert HasKey(fs, fs.key);
    }
  }

  /** A string contains what stands between some beginning and some end of it. */
  lemma {:induction false} ContainsWhere(s: string, part: string)
    ensures Contains(s, part) <==> exists front, back :: s == front + part + back
    decreases |s|
  {
    if part <= s {
      assert s == "" + part + s[|part|..];
    } else if Contains(s, part) {
      ContainsWhere(s[1..], part);
      var front, back :| s[1..] == front + part + back;
      assert s == ([s[0]] + front) + part + back;
    }
    if front, back :| s == front + part + back && front != "" {
      assert s[1..] == front[1..] + part + back;
      ContainsWhere(s[1..], part);
    }
    if back :| s == "" + part + back {
      assert part == s[..|part|];
    }
  }

  /** `validate_arguments` raises nothing. */
  predicate Accepts(body: Fields, schema: Schema) {
    && NoPathKeys(body)
    && ShapesAllowed(body, schema)
    && var paths := Flatten(body, "", schema.filterable);
       forall k | 0 <= k < |paths| ::
         paths[k] in schema.filterable && IsAllowed(schema, paths[k], ValueAt(Obj(body), paths[k]))
  }

  /** The flattened paths whose values are read, in turn, until one is refused. */
  function PathsRead(body: Fields, schema: Schema, paths: seq<string>): seq<string> {
    if paths == [] || paths[0] !in schema.filterable then []
    else
      [paths[0]]
      + if IsAllowed(schema, paths[0], ValueAt(Obj(body), paths[0])) then PathsRead(body, schema, paths[1..]) else []
  }

  lemma NextRead(body: Fields, schema: Schema, paths: seq<string>, n: nat)
    requires n < |paths|
    ensures PathsRead(body, schema, paths[n..])
         == if paths[n] !in schema.filterable then []
            else [paths[n]] + if IsAllowed(schema, paths[n], ValueAt(Obj(body), paths[n]))
                              then PathsRead(body, schema, paths[n + 1..]) else []
  {
    hide ValueAt, IsAllowed;
    assert paths[n..][1..] == paths[n + 1..];
  }

  lemma NothingRead(body: Fields, schema: Schema, paths: seq<string>)
    ensures PathsRead(body, schema, paths[|paths|..]) == []
  {}

  /** `validate_arguments`, with the paths it has read values at. */
  method ValidateArguments(body: Fields, schema: Schema) returns (accepted: bool, read: seq<string>)
    ensures accepted == Accepts(body, schema)
    ensures read == if NoPathKeys(body) && ShapesAllowed(body, schema)
                    then PathsRead(body, schema, Flatten(body, "", schema.filterable)) else []
  {
    hide Flatten, ValueAt, IsAllowed, NoPathKeys, ShapesAllowed, PathsRead;
    read := [];
    if !NoPathKeys(body) || !ShapesAllowed(body, schema) {
      return false, read;
    }
    var paths := Flatten(body, "", schema.filterable);
    var n := 0;
    assert paths[0..] == paths;
    while n < |paths|
      invariant 0 <= n <= |paths|
      invariant forall k | 0 <= k < n ::
                  paths[k] in schema.filterable && IsAllowed(schema, paths[k], ValueAt(Obj(body), paths[k]))
      invariant PathsRead(body, schema, paths) == read + PathsRead(body, schema, paths[n..])
    {
      NextRead(body, schema, paths, n);
      if paths[n] !in schema.filterable {
        return false, read;
      }
      read := read + [paths[n]];
      if !IsAllowed(schema, paths[n], ValueAt(Obj(body), paths[n])) {
        return false, read;
      }
      n := n + 1;
    }
    NothingRead(body, schema, paths);
    accepted := true;
  }
}
