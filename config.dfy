/** Config: the loaded YAML configuration and its dotted-key lookup. The
    document is a tree of values; only its string-keyed mappings can be
    walked into. */
module Config {
  import opened Common

  /** A YAML value as safe_load returns it. */
  datatype Value =
    | Null
    | Bool(b: bool)
    | Int(i: int)
    | Str(s: string)
    | List(items: seq<Value>)
    | Mapping(entries: map<string, Value>)

  /** An empty mapping, the `{}` the section accessors fall back to. */
  const EMPTY: Value := Mapping(map[])

  /** The parts joined back with '.' between them. */
  function Join(parts: seq<string>): string
    requires |parts| > 0
  {
    if |parts| == 1 then parts[0] else parts[0] + "." + Join(parts[1..])
  }

  predicate NoDot(s: string) {
    forall i :: 0 <= i < |s| ==> s[i] != '.'
  }

  /** str.split("."): the maximal dot-free pieces between the dots, empty
      pieces included. */
  function Split(s: string): (parts: seq<string>)
    ensures |parts| > 0
    ensures forall i :: 0 <= i < |parts| ==> NoDot(parts[i])
    ensures Join(parts) == s
  {
    if s == [] then [""]
    else
      var rest := Split(s[1..]);
      if s[0] == '.' then
        assert s == "." + s[1..];
        [""] + rest
      else
        var parts := [[s[0]] + rest[0]] + rest[1..];
        assert parts[1..] == rest[1..];
        assert s == [s[0]] + s[1..];
        parts
  }

  /** A dot-free prefix joins the first piece of whatever follows it. */
  lemma {:induction false} SplitDotFreePrefix(p: string, t: string)
    requires NoDot(p)
    ensures Split(p + t) == [p + Split(t)[0]] + Split(t)[1..]
  {
    var tail := Split(t);
    if p == [] {
      assert p + t == t;
      assert tail == [tail[0]] + tail[1..];
      assert p + tail[0] == tail[0];
    } else {
      var s := p + t;
      assert s[0] == p[0] && s[0] != '.';
      assert s[1..] == p[1..] + t;
      SplitDotFreePrefix(p[1..], t);
      var rest := Split(s[1..]);
      assert rest == [p[1..] + tail[0]] + tail[1..];
      assert Split(s) == [[s[0]] + rest[0]] + rest[1..];
      assert [p[0]] + (p[1..] + tail[0]) == p + tail[0];
    }
  }

  /** Splitting undoes joining, for dot-free parts. */
  lemma {:induction false} SplitJoin(parts: seq<string>)
    requires |parts| > 0
    requires forall i :: 0 <= i < |parts| ==> NoDot(parts[i])
    ensures Split(Join(parts)) == parts
  {
    if |parts| == 1 {
      SplitDotFreePrefix(parts[0], "");
      assert parts[0] + "" == parts[0];
    } else {
      var rest := Join(parts[1..]);
      SplitJoin(parts[1..]);
      SplitDotFreePrefix(parts[0], "." + rest);
      assert Split("." + rest) == [""] + Split(rest) by {
        assert ("." + rest)[1..] == rest;
      }
      assert parts[0] + "" == parts[0];
    }
  }

  /** What get returns: walking the keys in order, a mapping steps to
      entries.get(k, default) and anything else ends the walk with default. */
  function Walk(value: Value, keys: seq<string>, default: Value): (r: Value)
    ensures !default.Mapping? ==> r == default || At(value, keys) == Some(r)
    decreases |keys|
  {
    if keys == [] then value
    else if value.Mapping? then
      Walk(if keys[0] in value.entries then value.entries[keys[0]] else default, keys[1..], default)
    else default
  }

  /** The value stored at the end of the path, if every key is present in
      nested mappings. */
  function At(value: Value, keys: seq<string>): Option<Value> {
    if keys == [] then Some(value)
    else if value.Mapping? && keys[0] in value.entries then At(value.entries[keys[0]], keys[1..])
    else None
  }

  /** A path present in the document yields the value stored there. */
  lemma {:induction false} WalkFindsPresentPath(value: Value, keys: seq<string>, default: Value)
    requires At(value, keys).Some?
    ensures Walk(value, keys, default) == At(value, keys).value
  {
    if keys != [] {
      WalkFindsPresentPath(value.entries[keys[0]], keys[1..], default);
    }
  }

  /** Meeting a non-mapping while keys remain yields the default. */
  lemma {:induction false} WalkStopsAtNonMapping(value: Value, keys: seq<string>, i: nat, default: Value)
    requires i < |keys| && At(value, keys[..i]).Some? && !At(value, keys[..i]).value.Mapping?
    ensures Walk(value, keys, default) == default
  {
    if i > 0 {
      assert keys[..i][1..] == keys[1..][..i - 1];
      WalkStopsAtNonMapping(value.entries[keys[0]], keys[1..], i - 1, default);
    }
  }

  /** With a default that is not a mapping, get is exactly "the stored value
      or the default". */
  lemma {:induction false} WalkWithPlainDefault(value: Value, keys: seq<string>, default: Value)
    requires !default.Mapping?
    ensures Walk(value, keys, default) == if At(value, keys).Some? then At(value, keys).value else default
  {
    if keys != [] && value.Mapping? {
      if keys[0] in value.entries {
        WalkWithPlainDefault(value.entries[keys[0]], keys[1..], default);
      } else if keys[1..] != [] {
        assert Walk(value, keys, default) == Walk(default, keys[1..], default);
      }
    }
  }

  /** A missing key with a mapping default: the walk goes on inside the
      default, rather than returning it. */
  lemma WalkContinuesInsideDefault(value: Value, k: string, rest: seq<string>, default: Value)
    requires value.Mapping? && k !in value.entries
    ensures Walk(value, [k] + rest, default) == Walk(default, rest, default)
  {
    assert ([k] + rest)[1..] == rest;
  }

  /** A key without a dot is a single-key path, so get of a section name
      walks exactly one step. */
  lemma SplitDotFreeKey(key: string)
    requires NoDot(key)
    ensures Split(key) == [key]
  {
    SplitDotFreePrefix(key, "");
    assert key + "" == key;
  }

  /** "cassandra.hosts" splits into its two keys. The key is a parameter fixed
      by the requires, because Split unfolded on the literal itself is too
      costly for the solver. */
  lemma SplitCassandraHosts(key: string)
    requires key == "cassandra.hosts"
    ensures Split(key) == ["cassandra", "hosts"]
  {
    var parts := ["cassandra", "hosts"];
    assert Join(parts) == "cassandra.hosts";
    assert NoDot(parts[0]) && NoDot(parts[1]);
    SplitJoin(parts);
  }

  /** For instance, get("cassandra.hosts", {"hosts": "x"}) on an empty
      document returns "x", not the default mapping. The key is a parameter
      for the same reason as in SplitCassandraHosts. */
  lemma MappingDefaultExample(key: string)
    requires key == "cassandra.hosts"
    ensures Walk(EMPTY, Split(key), Mapping(map["hosts" := Str("x")])) == Str("x")
  {
    SplitCassandraHosts(key);
    var default := Mapping(map["hosts" := Str("x")]);
    assert ["cassandra"] + ["hosts"] == Split(key);
    WalkContinuesInsideDefault(EMPTY, "cassandra", ["hosts"], default);
    assert ["hosts"][1..] == [];
  }

  /** A document that is not a mapping (an empty file loads as null) answers
      every key with the default. */
  lemma WalkOnNonMappingDocument(value: Value, key: string, default: Value)
    requires !value.Mapping?
    ensures Walk(value, Split(key), default) == default
  {
  }

  /** A top-level section: dict.get(name, {}) on the document, or
      AttributeError when the document is not a mapping. */
  function Section(value: Value, name: string): (r: Result<Value>)
    ensures r.Err? <==> !value.Mapping?
    ensures r.Err? ==> r.error == AttributeError("get")
    ensures r.Ok? ==> r.value == Walk(value, [name], EMPTY)
    ensures r.Ok? && At(value, [name]).None? ==> r.value == EMPTY
  {
    assert [name][1..] == [];
    assert value.Mapping? && name in value.entries ==> At(value, [name]).Some?;
    match value
    case Mapping(entries) => Ok(if name in entries then entries[name] else EMPTY)
    case _ => Err(AttributeError("get"))
  }

  /** The configuration manager, holding the loaded document. */
  class Config {
    var config: Value

    /** The document as _load_config stores it. */
    constructor (loaded: Value)
      ensures config == loaded
    {
      config := loaded;
    }

    /** get: split the key on '.', then step into the document one key at a
        time. It changes nothing. */
    method Get(key: string, default: Value := Null) returns (value: Value)
      ensures value == Walk(config, Split(key), default)
    {
      var keys := Split(key);
      value := config;
      var i := 0;
      while i < |keys|
        invariant 0 <= i <= |keys|
        invariant Walk(value, keys[i..], default) == Walk(config, keys, default)
      {
        if value.Mapping? {
          value := if keys[i] in value.entries then value.entries[keys[i]] else default;
        } else {
          return default;
        }
        i := i + 1;
      }
    }

    /** The cassandra property. */
    function Cassandra(): (r: Result<Value>)
      reads this
      ensures r.Ok? <==> config.Mapping?
      ensures r.Ok? ==> r.value == Walk(config, ["cassandra"], EMPTY)
    {
      Section(config, "cassandra")
    }

    /** The data property. */
    function Data(): (r: Result<Value>)
      reads this
      ensures r.Ok? <==> config.Mapping?
      ensures r.Ok? ==> r.value == Walk(config, ["data"], EMPTY)
    {
      Section(config, "data")
    }

    /** The etl property. */
    function Etl(): (r: Result<Value>)
      reads this
      ensures r.Ok? <==> config.Mapping?
      ensures r.Ok? ==> r.value == Walk(config, ["etl"], EMPTY)
    {
      Section(config, "etl")
    }
  }
}
