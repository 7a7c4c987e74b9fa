/** The block parser as the validator runs it: index-passing loops over the record list. */
module YamlParser {
  import opened Wrappers
  import opened YamlSubset

  /** A method's value and next index say the same as the specification's value and remaining records. */
  ghost predicate Agrees<T>(spec: Parse<T>, records: seq<Record>, r: Result<(T, nat), YamlError>) {
    match r
    case Ok((v, index)) => index <= |records| && spec == Parsed(v, records[index..])
    case Err(e) => spec == Failed(e)
  }

  /**
   Parses the block at `start`. A call that returns has strictly advanced the
   index whenever there was a record at the asked indentation or deeper, which
   is why every loop that calls it terminates.
   */
  method ParseBlockAt(records: seq<Record>, start: nat, indent: nat) returns (r: Result<(Value, nat), YamlError>)
    requires start <= |records|
    ensures Agrees(ParseBlock(records[start..], indent), records, r)
    ensures r.Ok? && start < |records| && records[start].indent >= indent ==> start < r.value.1
    decreases |records| - start, 4
  {
    if start >= |records| || records[start].indent < indent {
      return Ok((Mapping([]), start));
    }
    if IsDash(records[start].content) {
      r := ParseListAt(records, start, records[start].indent);
    } else {
      r := ParseMappingAt(records, start, records[start].indent);
    }
  }

  method ParseListAt(records: seq<Record>, start: nat, indent: nat) returns (r: Result<(Value, nat), YamlError>)
    requires start < |records| && records[start].indent == indent && IsDash(records[start].content)
    ensures Agrees(ParseItems(records[start..], indent, []), records, r)
    decreases |records| - start, 3
  {
    var items: seq<Value> := [];
    var index := start;
    while index < |records| && records[index].indent == indent && IsDash(records[index].content)
      invariant start <= index <= |records|
      invariant ParseItems(records[start..], indent, []) == ParseItems(records[index..], indent, items)
      decreases |records| - index
    {
      assert records[index..][1..] == records[index + 1..];
      var item := ParseItemAt(records, index, indent);
      if item.Err? {
        return Err(item.error);
      }
      assert index + 1 <= item.value.1;
      items := items + [item.value.0];
      index := item.value.1;
    }
    r := Ok((List(items), index));
  }

  method ParseItemAt(records: seq<Record>, at: nat, indent: nat) returns (r: Result<(Value, nat), YamlError>)
    requires at < |records| && IsDash(records[at].content)
    ensures Agrees(ParseItem(records[at].content, records[at + 1..], indent), records, r)
    ensures r.Ok? ==> at < r.value.1
    decreases |records| - at, 2
  {
    var text := Strip(records[at].content[2..]);
    var index := at + 1;
    if text == "" {
      r := ParseValueAt("", records, index, indent);
      return;
    }
    var split := SplitAtColon(text);
    if split.Err? {
      if Nested(records[index..], indent) {
        return Err(ScalarHasNested);
      }
      return Ok((ParseScalar(text), index));
    }
    var first := ParseValueAt(split.value.1, records, index, indent);
    if first.Err? {
      return Err(first.error);
    }
    r := MergeNestedAt(records, first.value.1, indent, [Field(split.value.0, first.value.0)]);
  }

  method MergeNestedAt(records: seq<Record>, start: nat, indent: nat, first: seq<Field>)
    returns (r: Result<(Value, nat), YamlError>)
    requires start <= |records|
    ensures Agrees(ParseMerge(records[start..], indent, first), records, r)
    ensures r.Ok? ==> start <= r.value.1
    decreases |records| - start, 6
  {
    var item := first;
    var index := start;
    while index < |records| && records[index].indent > indent
      invariant start <= index <= |records|
      invariant ParseMerge(records[start..], indent, first) == ParseMerge(records[index..], indent, item)
      decreases |records| - index
    {
      var nested := ParseBlockAt(records, index, records[index].indent);
      if nested.Err? {
        return Err(nested.error);
      }
      if !nested.value.0.Mapping? {
        return Err(NestedNotMapping);
      }
      item := Update(item, nested.value.0.fields);
      index := nested.value.1;
    }
    r := Ok((Mapping(item), index));
  }

  method ParseValueAt(inline: string, records: seq<Record>, index: nat, indent: nat)
    returns (r: Result<(Value, nat), YamlError>)
    requires index <= |records|
    ensures Agrees(ParseValue(inline, records[index..], indent), records, r)
    ensures r.Ok? ==> index <= r.value.1
    decreases |records| - index, 5
  {
    if inline != "" {
      return Ok((ParseScalar(inline), index));
    }
    if index < |records| && records[index].indent > indent {
      r := ParseBlockAt(records, index, records[index].indent);
    } else {
      r := Ok((Mapping([]), index));
    }
  }

  method ParseMappingAt(records: seq<Record>, start: nat, indent: nat) returns (r: Result<(Value, nat), YamlError>)
    requires start < |records| && records[start].indent == indent && !IsDash(records[start].content)
    ensures Agrees(ParseFields(records[start..], indent, []), records, r)
    decreases |records| - start, 3
  {
    var mapping: seq<Field> := [];
    var index := start;
    while index < |records| && records[index].indent == indent && !IsDash(records[index].content)
      invariant start <= index <= |records|
      invariant ParseFields(records[start..], indent, []) == ParseFields(records[index..], indent, mapping)
      decreases |records| - index
    {
      assert records[index..][1..] == records[index + 1..];
      var field := ParseFieldAt(records, index, indent);
      if field.Err? {
        return Err(field.error);
      }
      mapping := Put(mapping, field.value.0);
      index := field.value.1;
    }
    r := Ok((Mapping(mapping), index));
  }

  method ParseFieldAt(records: seq<Record>, at: nat, indent: nat) returns (r: Result<(Field, nat), YamlError>)
    requires at < |records|
    ensures Agrees(ParseField(records[at].content, records[at + 1..], indent), records, r)
    ensures r.Ok? ==> at < r.value.1
    decreases |records| - at, 2
  {
    var split := SplitAtColon(records[at].content);
    if split.Err? {
      return Err(split.error);
    }
    var value := ParseValueAt(split.value.1, records, at + 1, indent);
    if value.Err? {
      return Err(value.error);
    }
    r := Ok((Field(split.value.0, value.value.0), value.value.1));
  }

  /** The document: an empty record list is an empty mapping, and nothing may trail. */
  method ParseDocument(records: seq<Record>) returns (r: Result<Value, YamlError>)
    ensures r == ParseRecords(records)
  {
    if records == [] {
      return Ok(Mapping([]));
    }
    assert records[0..] == records;
    var block := ParseBlockAt(records, 0, records[0].indent);
    if block.Err? {
      return Err(block.error);
    }
    if block.value.1 != |records| {
      return Err(TrailingContent);
    }
    r := Ok(block.value.0);
  }
}
