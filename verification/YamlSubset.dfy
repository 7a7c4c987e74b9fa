/**
 The YAML subset read by the chart validator: comment stripping, key/value
 splitting, and the indentation-driven block parser.

 Line numbers only label error messages and are not kept.
 */
module YamlSubset {
  import opened Wrappers
  import opened Text

  /** A mapping keeps insertion order; what a scalar's text denotes is left open. */
  datatype Value = Scalar(raw: string) | List(items: seq<Value>) | Mapping(fields: seq<Field>)

  datatype Field = Field(key: string, value: Value)

  datatype Record = Record(indent: nat, content: string)

  datatype YamlError = EmptyKey | ExpectedKeyValue | NestedNotMapping | ScalarHasNested | TrailingContent | TabIndent

  /** White space as the validator's language strips it. */
  predicate IsSpace(c: char) { PythonBlanks.Drops(c) }

  function Strip(s: string): string { Trim(s, PythonBlanks) }

  // ---------------------------------------------------------------- key/value splitting

  datatype Quotes = Quotes(single: bool, double: bool) {
    predicate Open() { single || double }

    /** The state after the character at `i`; a doubled single quote inside single quotes is skipped once. */
    function Next(text: string, i: nat): Quotes
      requires i < |text|
    {
      var c := text[i];
      if c == '\'' && !double then
        if single && i + 1 < |text| && text[i + 1] == '\'' then this else Quotes(!single, double)
      else if c == '\"' && !single then Quotes(single, !double)
      else this
    }
  }

  const OUTSIDE: Quotes := Quotes(false, false)

  /** The first colon at or after `i` outside quotes. */
  function FindColon(text: string, i: nat, q: Quotes): (r: Option<nat>)
    requires i <= |text|
    ensures r.Some? ==> i <= r.value < |text| && text[r.value] == ':'
    decreases |text| - i
  {
    if i == |text| then None
    else if text[i] == ':' && !q.Open() then Some(i)
    else FindColon(text, i + 1, q.Next(text, i))
  }

  function SplitAt(text: string, colon: Option<nat>): Result<(string, string), YamlError>
    requires colon.Some? ==> colon.value < |text|
  {
    if colon.None? then Err(ExpectedKeyValue)
    else
      var key := Strip(text[..colon.value]);
      if key == "" then Err(EmptyKey) else Ok((key, Strip(text[colon.value + 1..])))
  }

  function SplitKeyValue(text: string): Result<(string, string), YamlError> {
    SplitAt(text, FindColon(text, 0, OUTSIDE))
  }

  /** The scan for the separating colon, as a loop over the characters. */
  method ScanColon(text: string) returns (r: Option<nat>)
    ensures r == FindColon(text, 0, OUTSIDE)
  {
    var q := OUTSIDE;
    for i := 0 to |text|
      invariant FindColon(text, 0, OUTSIDE) == FindColon(text, i, q)
    {
      if text[i] == ':' && !q.Open() {
        return Some(i);
      }
      q := q.Next(text, i);
    }
    r := None;
  }

  method SplitAtColon(text: string) returns (r: Result<(string, string), YamlError>)
    ensures r == SplitKeyValue(text)
  {
    var colon := ScanColon(text);
    r := SplitAt(text, colon);
  }

  // ---------------------------------------------------------------- ordered mappings

  function Put(fields: seq<Field>, f: Field): seq<Field> {
    if fields == [] then [f]
    else if fields[0].key == f.key then [f] + fields[1..]
    else [fields[0]] + Put(fields[1..], f)
  }

  function Update(fields: seq<Field>, more: seq<Field>): seq<Field>
    decreases |more|
  {
    if more == [] then fields else Update(Put(fields, more[0]), more[1..])
  }

  predicate Distinct(fields: seq<Field>) {
    forall i, j :: 0 <= i < j < |fields| ==> fields[i].key != fields[j].key
  }

  lemma {:induction false} PutNew(fields: seq<Field>, f: Field)
    requires forall i :: 0 <= i < |fields| ==> fields[i].key != f.key
    ensures Put(fields, f) == fields + [f]
  {
    if fields != [] {
      PutNew(fields[1..], f);
      assert fields == [fields[0]] + fields[1..];
    }
  }

  lemma {:induction false} UpdateNew(fields: seq<Field>, more: seq<Field>)
    requires Distinct(fields + more)
    ensures Update(fields, more) == fields + more
    decreases |more|
  {
    if more != [] {
      forall i | 0 <= i < |fields| ensures fields[i].key != more[0].key {
        assert (fields + more)[i].key != (fields + more)[|fields|].key;
      }
      PutNew(fields, more[0]);
      assert (fields + [more[0]]) + more[1..] == fields + more;
      UpdateNew(fields + [more[0]], more[1..]);
    } else {
      assert fields + more == fields;
    }
  }

  // ---------------------------------------------------------------- the block parser

  function ParseScalar(raw: string): Value {
    if raw == "{}" then Mapping([]) else if raw == "[]" then List([]) else Scalar(raw)
  }

  predicate IsDash(content: string) { |content| >= 2 && content[..2] == "- " }

  predicate Nested(recs: seq<Record>, indent: nat) { recs != [] && recs[0].indent > indent }

  datatype Parse<+T> = Parsed(value: T, rest: seq<Record>) | Failed(error: YamlError)

  /** The records from the current position on; what is left comes back with the value. */
  function ParseBlock(recs: seq<Record>, indent: nat): (r: Parse<Value>)
    ensures r.Parsed? ==> |r.rest| <= |recs|
    ensures r.Parsed? && recs != [] && recs[0].indent >= indent ==> |r.rest| < |recs|
    decreases |recs|, 4
  {
    if recs == [] || recs[0].indent < indent then Parsed(Mapping([]), recs)
    else if IsDash(recs[0].content) then ParseItems(recs, recs[0].indent, [])
    else ParseFields(recs, recs[0].indent, [])
  }

  function ParseItems(recs: seq<Record>, indent: nat, items: seq<Value>): (r: Parse<Value>)
    ensures r.Parsed? ==> |r.rest| <= |recs|
    ensures r.Parsed? && recs != [] && recs[0].indent == indent && IsDash(recs[0].content) ==> |r.rest| < |recs|
    decreases |recs|, 3
  {
    if recs == [] || recs[0].indent != indent || !IsDash(recs[0].content) then Parsed(List(items), recs)
    else
      var item := ParseItem(recs[0].content, recs[1..], indent);
      if item.Failed? then Failed(item.error) else ParseItems(item.rest, indent, items + [item.value])
  }

  /** One list item whose dash line has `content`, followed by `tail`. */
  function ParseItem(content: string, tail: seq<Record>, indent: nat): (r: Parse<Value>)
    requires IsDash(content)
    ensures r.Parsed? ==> |r.rest| <= |tail|
    decreases |tail|, 7
  {
    var text := Strip(content[2..]);
    if text == "" then ParseValue("", tail, indent)
    else
      var split := SplitKeyValue(text);
      if split.Err? then
        if Nested(tail, indent) then Failed(ScalarHasNested) else Parsed(ParseScalar(text), tail)
      else
        var first := ParseValue(split.value.1, tail, indent);
        if first.Failed? then Failed(first.error)
        else ParseMerge(first.rest, indent, [Field(split.value.0, first.value)])
  }

  /** The value of a key: its inline scalar, the nested block, or an empty mapping. */
  function ParseValue(inline: string, tail: seq<Record>, indent: nat): (r: Parse<Value>)
    ensures r.Parsed? ==> |r.rest| <= |tail|
    decreases |tail|, 5
  {
    if inline != "" then Parsed(ParseScalar(inline), tail)
    else if Nested(tail, indent) then ParseBlock(tail, tail[0].indent)
    else Parsed(Mapping([]), tail)
  }

  function ParseMerge(recs: seq<Record>, indent: nat, fields: seq<Field>): (r: Parse<Value>)
    ensures r.Parsed? ==> |r.rest| <= |recs|
    decreases |recs|, 6
  {
    if !Nested(recs, indent) then Parsed(Mapping(fields), recs)
    else
      var nested := ParseBlock(recs, recs[0].indent);
      if nested.Failed? then Failed(nested.error)
      else if !nested.value.Mapping? then Failed(NestedNotMapping)
      else ParseMerge(nested.rest, indent, Update(fields, nested.value.fields))
  }

  function ParseFields(recs: seq<Record>, indent: nat, fields: seq<Field>): (r: Parse<Value>)
    ensures r.Parsed? ==> |r.rest| <= |recs|
    ensures r.Parsed? && recs != [] && recs[0].indent == indent && !IsDash(recs[0].content) ==> |r.rest| < |recs|
    decreases |recs|, 3
  {
    if recs == [] || recs[0].indent != indent || IsDash(recs[0].content) then Parsed(Mapping(fields), recs)
    else
      var field := ParseField(recs[0].content, recs[1..], indent);
      if field.Failed? then Failed(field.error) else ParseFields(field.rest, indent, Put(fields, field.value))
  }

  /** One key of a mapping whose line has `content`, followed by `tail`. */
  function ParseField(content: string, tail: seq<Record>, indent: nat): (r: Parse<Field>)
    ensures r.Parsed? ==> |r.rest| <= |tail|
    decreases |tail|, 7
  {
    var split := SplitKeyValue(content);
    if split.Err? then Failed(split.error)
    else
      var value := ParseValue(split.value.1, tail, indent);
      if value.Failed? then Failed(value.error) else Parsed(Field(split.value.0, value.value), value.rest)
  }

  /** The whole record list; nothing may be left over. */
  function ParseRecords(recs: seq<Record>): Result<Value, YamlError> {
    if recs == [] then Ok(Mapping([]))
    else
      var block := ParseBlock(recs, recs[0].indent);
      if block.Failed? then Err(block.error)
      else if block.rest != [] then Err(TrailingContent)
      else Ok(block.value)
  }
}
