/**
 A reference renderer for the YAML subset, in canonical two-space block style,
 and the proof that the block parser inverts it.
 */
module YamlRoundTrip {
  import opened Wrappers
  import opened Text
  import opened YamlSubset

  // ---------------------------------------------------------------- what can be rendered

  /** No colon outside quotes, and every quote closed at the end. */
  predicate KeyScan(key: string, i: nat, q: Quotes)
    requires i <= |key|
    decreases |key| - i
  {
    if i == |key| then !q.Open()
    else !(key[i] == ':' && !q.Open()) && KeyScan(key, i + 1, q.Next(key, i))
  }

  predicate Trimmed(s: string) { s != "" && !IsSpace(s[0]) && !IsSpace(s[|s| - 1]) }

  predicate KeyOk(key: string) { Trimmed(key) && !IsDash(key) && KeyScan(key, 0, OUTSIDE) }

  predicate ScalarOk(raw: string) { Trimmed(raw) && raw != "{}" && raw != "[]" }

  /** Rendered as a block of its own, below its key or dash. */
  predicate IsBlock(v: Value) { (v.Mapping? && v.fields != []) || (v.List? && v.items != []) }

  /** Lists hold scalars that do not look like `key: value`, empty collections, and mappings. */
  predicate ItemOk(v: Value) {
    match v
    case Scalar(raw) => SplitKeyValue(raw).Err?
    case List(items) => items == []
    case Mapping(_) => true
  }

  predicate Renderable(v: Value)
    decreases v
  {
    match v
    case Scalar(raw) => ScalarOk(raw)
    case Mapping(fields) =>
      Distinct(fields) && forall i :: 0 <= i < |fields| ==> KeyOk(fields[i].key) && Renderable(fields[i].value)
    case List(items) => forall i :: 0 <= i < |items| ==> ItemOk(items[i]) && Renderable(items[i])
  }

  predicate FieldsOk(fields: seq<Field>) {
    forall i :: 0 <= i < |fields| ==> KeyOk(fields[i].key) && Renderable(fields[i].value)
  }

  // ---------------------------------------------------------------- the renderer

  function Inline(v: Value): string {
    if IsBlock(v) then ""
    else match v
      case Scalar(raw) => raw
      case Mapping(_) => "{}"
      case List(_) => "[]"
  }

  function Head(f: Field): string {
    f.key + ":" + if IsBlock(f.value) then "" else " " + Inline(f.value)
  }

  function RenderBlock(v: Value, indent: nat): seq<Record>
    decreases v, 4
  {
    match v
    case Scalar(_) => []
    case Mapping(fields) => RenderFields(fields, indent)
    case List(items) => RenderItems(items, indent)
  }

  function RenderFields(fields: seq<Field>, indent: nat): seq<Record>
    decreases fields, 3
  {
    if fields == [] then []
    else
      [Record(indent, Head(fields[0]))] + RenderBlock(fields[0].value, indent + 2) + RenderFields(fields[1..], indent)
  }

  function RenderItems(items: seq<Value>, indent: nat): seq<Record>
    decreases items, 3
  {
    if items == [] then [] else RenderItem(items[0], indent) + RenderItems(items[1..], indent)
  }

  /** A mapping's first key shares the line of the dash; its other keys align with it. */
  function RenderItem(v: Value, indent: nat): seq<Record>
    decreases v, 5
  {
    if v.Mapping? && v.fields != [] then
      [Record(indent, "- " + Head(v.fields[0]))]
      + RenderBlock(v.fields[0].value, indent + 4)
      + RenderFields(v.fields[1..], indent + 2)
    else [Record(indent, "- " + Inline(v))]
  }

  // ---------------------------------------------------------------- lines

  lemma {:induction false} ColonAfterKey(key: string, x: string, i: nat, q: Quotes)
    requires i <= |key| && KeyScan(key, i, q)
    ensures FindColon(key + ":" + x, i, q) == Some(|key|)
    decreases |key| - i
  {
    var text := key + ":" + x;
    assert text[|key|] == ':';
    if i < |key| {
      assert text[i] == key[i];
      assert q.Next(text, i) == q.Next(key, i);
      ColonAfterKey(key, x, i + 1, q.Next(key, i));
    }
  }

  lemma {:induction false} InlineTrimmed(v: Value)
    requires Renderable(v) && !IsBlock(v)
    ensures Trimmed(Inline(v)) && Strip(" " + Inline(v)) == Inline(v)
  {
    var inline := Inline(v);
    assert Trimmed(inline);
    assert " " + inline + "" == " " + inline;
    TrimPadded(" ", inline, "", PythonBlanks);
  }

  lemma {:induction false} SplitText(key: string, x: string)
    requires KeyOk(key)
    ensures SplitKeyValue(key + ":" + x) == Ok((key, Strip(x)))
  {
    var text := key + ":" + x;
    ColonAfterKey(key, x, 0, OUTSIDE);
    assert text[..|key|] == key && text[|key| + 1..] == x;
  }

  lemma {:induction false} SplitInverts(f: Field)
    requires KeyOk(f.key) && Renderable(f.value)
    ensures SplitKeyValue(Head(f)) == Ok((f.key, Inline(f.value)))
  {
    if IsBlock(f.value) {
      SplitText(f.key, "");
    } else {
      InlineTrimmed(f.value);
      SplitText(f.key, " " + Inline(f.value));
    }
  }

  lemma {:induction false} HeadShape(f: Field)
    requires KeyOk(f.key) && Renderable(f.value)
    ensures Trimmed(Head(f)) && !IsDash(Head(f))
  {
    var head := Head(f);
    assert head[0] == f.key[0] && head[|f.key|] == ':';
    if |f.key| >= 2 {
      assert head[..2] == f.key[..2];
    } else {
      assert head[..2] == [f.key[0], ':'];
    }
    if !IsBlock(f.value) {
      var inline := Inline(f.value);
      assert Trimmed(inline) && head[|head| - 1] == inline[|inline| - 1];
    }
  }

  lemma {:induction false} DashText(text: string)
    requires Trimmed(text)
    ensures IsDash("- " + text) && Strip(("- " + text)[2..]) == text
  {
    assert ("- " + text)[..2] == "- " && ("- " + text)[2..] == text;
  }

  // ---------------------------------------------------------------- blocks

  predicate Stops(rest: seq<Record>, indent: nat) { rest == [] || rest[0].indent < indent }

  lemma {:induction false} TakeFirst<T>(first: T, block: seq<T>, more: seq<T>, rest: seq<T>)
    ensures var all := ([first] + block + more) + rest;
            all != [] && all[0] == first && all[1..] == block + (more + rest)
  {
  }

  lemma {:induction false} MoveOne<T>(done: seq<T>, todo: seq<T>)
    requires todo != []
    ensures (done + [todo[0]]) + todo[1..] == done + todo
  {
  }

  lemma {:induction false} FieldsStart(fields: seq<Field>, indent: nat, rest: seq<Record>)
    requires fields != []
    ensures var recs := RenderFields(fields, indent) + rest;
            && recs != [] && recs[0] == Record(indent, Head(fields[0]))
            && recs[1..] == RenderBlock(fields[0].value, indent + 2) + (RenderFields(fields[1..], indent) + rest)
  {
    TakeFirst(Record(indent, Head(fields[0])), RenderBlock(fields[0].value, indent + 2),
              RenderFields(fields[1..], indent), rest);
  }

  lemma {:induction false} ItemsStart(items: seq<Value>, indent: nat, rest: seq<Record>)
    requires items != [] && RenderItem(items[0], indent) != []
    ensures var recs := RenderItems(items, indent) + rest;
            && recs != [] && recs[0] == RenderItem(items[0], indent)[0]
            && recs[1..] == RenderItem(items[0], indent)[1..] + (RenderItems(items[1..], indent) + rest)
  {
    var item := RenderItem(items[0], indent);
    assert item == [item[0]] + item[1..];
    TakeFirst(item[0], item[1..], RenderItems(items[1..], indent), rest);
  }

  /** One turn of the mapping loop. */
  lemma {:induction false} FieldsTurn(recs: seq<Record>, indent: nat, done: seq<Field>, f: Field, inline: string,
                                      rest: seq<Record>)
    requires recs != [] && recs[0].indent == indent && !IsDash(recs[0].content)
    requires SplitKeyValue(recs[0].content) == Ok((f.key, inline))
    requires ParseValue(inline, recs[1..], indent) == Parsed(f.value, rest)
    ensures ParseFields(recs, indent, done) == ParseFields(rest, indent, Put(done, f))
  {
    assert ParseField(recs[0].content, recs[1..], indent) == Parsed(f, rest);
  }

  /** One turn of the list loop. */
  lemma {:induction false} ItemsTurn(recs: seq<Record>, indent: nat, done: seq<Value>, v: Value, rest: seq<Record>)
    requires recs != [] && recs[0].indent == indent && IsDash(recs[0].content)
    requires ParseItem(recs[0].content, recs[1..], indent) == Parsed(v, rest)
    ensures ParseItems(recs, indent, done) == ParseItems(rest, indent, done + [v])
  {
  }

  lemma {:induction false} ItemByParts(content: string, tail: seq<Record>, indent: nat, f: Field, inline: string,
                                       after: seq<Record>)
    requires IsDash(content) && Strip(content[2..]) != ""
    requires SplitKeyValue(Strip(content[2..])) == Ok((f.key, inline))
    requires ParseValue(inline, tail, indent) == Parsed(f.value, after)
    ensures ParseItem(content, tail, indent) == ParseMerge(after, indent, [f])
  {
    assert f == Field(f.key, f.value);
  }

  lemma {:induction false} FieldsStop(fields: seq<Field>, indent: nat, rest: seq<Record>, limit: nat)
    requires indent < limit && Stops(rest, limit)
    ensures Stops(RenderFields(fields, indent) + rest, limit)
  {
    if fields == [] {
      assert RenderFields(fields, indent) + rest == rest;
    }
  }

  lemma {:induction false} BlockInverts(v: Value, indent: nat, rest: seq<Record>)
    requires Renderable(v) && IsBlock(v) && Stops(rest, indent)
    ensures ParseBlock(RenderBlock(v, indent) + rest, indent) == Parsed(v, rest)
    ensures RenderBlock(v, indent) != [] && RenderBlock(v, indent)[0].indent == indent
    decreases v, 4
  {
    match v
    case Mapping(fields) =>
      FieldsStart(fields, indent, []);
      FieldsStart(fields, indent, rest);
      HeadShape(fields[0]);
      FieldsInvert(fields, indent, [], rest);
      assert [] + fields == fields;
      assert RenderFields(fields, indent) + [] == RenderFields(fields, indent);
    case List(items) =>
      ItemHead(items[0], indent);
      ItemsStart(items, indent, []);
      ItemsStart(items, indent, rest);
      ItemsInvert(items, indent, [], rest);
      assert [] + items == items;
      assert RenderItems(items, indent) + [] == RenderItems(items, indent);
  }

  lemma {:induction false} ValueInverts(v: Value, indent: nat, child: nat, rest: seq<Record>)
    requires Renderable(v) && indent < child
    requires IsBlock(v) ==> Stops(rest, child)
    ensures ParseValue(Inline(v), RenderBlock(v, child) + rest, indent) == Parsed(v, rest)
    decreases v, 5
  {
    if IsBlock(v) {
      BlockInverts(v, child, rest);
    } else {
      assert RenderBlock(v, child) == [];
      assert [] + rest == rest;
    }
  }

  lemma {:induction false} FieldsInvert(fields: seq<Field>, indent: nat, done: seq<Field>, rest: seq<Record>)
    requires FieldsOk(fields) && Distinct(done + fields) && Stops(rest, indent)
    ensures ParseFields(RenderFields(fields, indent) + rest, indent, done) == Parsed(Mapping(done + fields), rest)
    decreases fields, 3
  {
    var recs := RenderFields(fields, indent) + rest;
    if fields == [] {
      assert recs == rest && done + fields == done;
    } else {
      var f, more := fields[0], fields[1..];
      var others := RenderFields(more, indent) + rest;
      MoveOne(done, fields);
      FieldsInvert(more, indent, done + [f], rest);
      NewKey(done, fields);
      PutNew(done, f);
      FieldsStart(fields, indent, rest);
      HeadShape(f);
      SplitInverts(f);
      FieldsStop(more, indent, rest, indent + 2);
      ValueInverts(f.value, indent, indent + 2, others);
      FieldsTurn(recs, indent, done, f, Inline(f.value), others);
    }
  }

  lemma {:induction false} NewKey(done: seq<Field>, fields: seq<Field>)
    requires fields != [] && Distinct(done + fields)
    ensures forall i :: 0 <= i < |done| ==> done[i].key != fields[0].key
  {
    forall i | 0 <= i < |done| ensures done[i].key != fields[0].key {
      assert (done + fields)[i].key != (done + fields)[|done|].key;
    }
  }

  /** The text after the dash of a list item. */
  function ItemText(v: Value): string {
    if v.Mapping? && v.fields != [] then Head(v.fields[0]) else Inline(v)
  }

  lemma {:induction false} ItemTextTrimmed(v: Value)
    requires Renderable(v) && ItemOk(v)
    ensures Trimmed(ItemText(v))
  {
    if v.Mapping? && v.fields != [] {
      HeadShape(v.fields[0]);
    }
  }

  lemma {:induction false} ItemFirst(v: Value, indent: nat)
    ensures RenderItem(v, indent) != [] && RenderItem(v, indent)[0] == Record(indent, "- " + ItemText(v))
  {
  }

  lemma {:induction false} ItemHead(v: Value, indent: nat)
    requires Renderable(v) && ItemOk(v)
    ensures RenderItem(v, indent) != [] && RenderItem(v, indent)[0].indent == indent
    ensures IsDash(RenderItem(v, indent)[0].content)
  {
    var text := ItemText(v);
    ItemTextTrimmed(v);
    ItemFirst(v, indent);
    DashText(text);
  }

  lemma {:induction false} NotAPair(v: Value)
    requires Renderable(v) && ItemOk(v) && !IsBlock(v)
    ensures Trimmed(Inline(v)) && SplitKeyValue(Inline(v)).Err? && ParseScalar(Inline(v)) == v
  {
    NoColon("{}", 0, OUTSIDE);
    NoColon("[]", 0, OUTSIDE);
  }

  lemma {:induction false} ScalarItem(content: string, tail: seq<Record>, indent: nat, text: string)
    requires IsDash(content) && Strip(content[2..]) == text && text != ""
    requires SplitKeyValue(text).Err? && !Nested(tail, indent)
    ensures ParseItem(content, tail, indent) == Parsed(ParseScalar(text), tail)
  {
  }

  lemma {:induction false} InlineItemInverts(v: Value, indent: nat, rest: seq<Record>)
    requires Renderable(v) && ItemOk(v) && !IsBlock(v) && Stops(rest, indent + 1)
    requires IsDash(RenderItem(v, indent)[0].content)
    ensures ParseItem(RenderItem(v, indent)[0].content, RenderItem(v, indent)[1..] + rest, indent) == Parsed(v, rest)
  {
    var text := Inline(v);
    assert RenderItem(v, indent) == [Record(indent, "- " + text)];
    assert RenderItem(v, indent)[1..] + rest == rest;
    NotAPair(v);
    DashText(text);
    ScalarItem("- " + text, rest, indent, text);
  }

  lemma {:induction false} ItemInverts(v: Value, indent: nat, rest: seq<Record>)
    requires Renderable(v) && ItemOk(v) && Stops(rest, indent + 1)
    requires IsDash(RenderItem(v, indent)[0].content)
    ensures ParseItem(RenderItem(v, indent)[0].content, RenderItem(v, indent)[1..] + rest, indent) == Parsed(v, rest)
    decreases v, 6
  {
    if v.Mapping? && v.fields != [] {
      MappingItemInverts(v, indent, rest);
    } else {
      InlineItemInverts(v, indent, rest);
    }
  }

  lemma {:induction false} MappingItemTail(v: Value, indent: nat, rest: seq<Record>)
    requires v.Mapping? && v.fields != []
    ensures RenderItem(v, indent)[0].content == "- " + Head(v.fields[0])
    ensures RenderItem(v, indent)[1..] + rest
         == RenderBlock(v.fields[0].value, indent + 4) + (RenderFields(v.fields[1..], indent + 2) + rest)
  {
    var first := Record(indent, "- " + Head(v.fields[0]));
    TakeFirst(first, RenderBlock(v.fields[0].value, indent + 4), RenderFields(v.fields[1..], indent + 2), []);
    TakeFirst(first, RenderBlock(v.fields[0].value, indent + 4), RenderFields(v.fields[1..], indent + 2), rest);
  }

  lemma {:induction false} MappingItemInverts(v: Value, indent: nat, rest: seq<Record>)
    requires Renderable(v) && v.Mapping? && v.fields != [] && Stops(rest, indent + 1)
    requires IsDash(RenderItem(v, indent)[0].content)
    ensures ParseItem(RenderItem(v, indent)[0].content, RenderItem(v, indent)[1..] + rest, indent) == Parsed(v, rest)
    decreases v, 5
  {
    var f, others := v.fields[0], v.fields[1..];
    var after := RenderFields(others, indent + 2) + rest;
    var tail := RenderItem(v, indent)[1..] + rest;
    assert v.fields == [f] + others;
    MergeInverts(f, others, indent, rest);
    MappingItemTail(v, indent, rest);
    HeadShape(f);
    DashText(Head(f));
    SplitInverts(f);
    FieldsStop(others, indent + 2, rest, indent + 4);
    ValueInverts(f.value, indent, indent + 4, after);
    ItemByParts("- " + Head(f), tail, indent, f, Inline(f.value), after);
  }

  lemma {:induction false} NoColon(text: string, i: nat, q: Quotes)
    requires i <= |text| && ':' !in text
    ensures FindColon(text, i, q) == None
    decreases |text| - i
  {
    if i < |text| {
      NoColon(text, i + 1, q.Next(text, i));
    }
  }

  /** The keys after the first one of a list item come back as one nested mapping, merged in. */
  lemma {:induction false} MergeInverts(f: Field, others: seq<Field>, indent: nat, rest: seq<Record>)
    requires FieldsOk(others) && Distinct([f] + others) && Stops(rest, indent + 1)
    ensures ParseMerge(RenderFields(others, indent + 2) + rest, indent, [f]) == Parsed(Mapping([f] + others), rest)
    decreases others, 4
  {
    var recs := RenderFields(others, indent + 2) + rest;
    if others == [] {
      assert recs == rest && [f] + others == [f];
    } else {
      FieldsStart(others, indent + 2, rest);
      HeadShape(others[0]);
      DistinctTail([f], others);
      assert [] + others == others;
      FieldsInvert(others, indent + 2, [], rest);
      UpdateNew([f], others);
      MergeTurn(recs, indent, [f], others, rest);
    }
  }

  lemma {:induction false} DistinctTail(a: seq<Field>, b: seq<Field>)
    requires Distinct(a + b)
    ensures Distinct(b)
  {
    forall i, j | 0 <= i < j < |b| ensures b[i].key != b[j].key {
      assert (a + b)[|a| + i].key != (a + b)[|a| + j].key;
    }
  }

  /** One turn of the merging loop, after which nothing is nested any more. */
  lemma {:induction false} MergeTurn(recs: seq<Record>, indent: nat, fields: seq<Field>, more: seq<Field>,
                                     rest: seq<Record>)
    requires Nested(recs, indent) && !IsDash(recs[0].content) && Stops(rest, indent + 1)
    requires ParseFields(recs, recs[0].indent, []) == Parsed(Mapping(more), rest)
    ensures ParseMerge(recs, indent, fields) == Parsed(Mapping(Update(fields, more)), rest)
  {
    assert ParseBlock(recs, recs[0].indent) == Parsed(Mapping(more), rest);
  }

  lemma {:induction false} ItemsStop(items: seq<Value>, indent: nat, rest: seq<Record>)
    requires forall i :: 0 <= i < |items| ==> ItemOk(items[i]) && Renderable(items[i])
    requires Stops(rest, indent)
    ensures Stops(RenderItems(items, indent) + rest, indent + 1)
  {
    if items == [] {
      assert RenderItems(items, indent) + rest == rest;
    } else {
      ItemHead(items[0], indent);
      ItemsStart(items, indent, rest);
    }
  }

  lemma {:induction false} ItemsInvert(items: seq<Value>, indent: nat, done: seq<Value>, rest: seq<Record>)
    requires forall i :: 0 <= i < |items| ==> ItemOk(items[i]) && Renderable(items[i])
    requires Stops(rest, indent)
    ensures ParseItems(RenderItems(items, indent) + rest, indent, done) == Parsed(List(done + items), rest)
    decreases items, 3
  {
    var recs := RenderItems(items, indent) + rest;
    if items == [] {
      assert recs == rest && done + items == done;
    } else {
      var v, more := items[0], items[1..];
      var others := RenderItems(more, indent) + rest;
      MoveOne(done, items);
      ItemsInvert(more, indent, done + [v], rest);
      ItemHead(v, indent);
      ItemsStart(items, indent, rest);
      ItemsStop(more, indent, rest);
      ItemInverts(v, indent, others);
      ItemsTurn(recs, indent, done, v, others);
    }
  }

  /**
   The parser inverts the renderer: for every non-empty mapping or list of
   renderable values, at any indentation, parsing the rendered records returns
   exactly that value and consumes every record.
   */
  lemma {:induction false} ParseInvertsRender(v: Value, indent: nat)
    requires Renderable(v) && IsBlock(v)
    ensures ParseRecords(RenderBlock(v, indent)) == Ok(v)
  {
    var recs := RenderBlock(v, indent);
    assert recs + [] == recs;
    BlockInverts(v, indent, []);
  }

  // ---------------------------------------------------------------- what the renderer does not print

  /** A key with neither a value nor anything nested below it has an empty mapping. */
  lemma {:induction false} BareKeyIsEmpty(key: string, indent: nat, rest: seq<Record>)
    requires KeyOk(key) && Stops(rest, indent)
    ensures ParseBlock([Record(indent, key + ":")] + rest, indent)
         == Parsed(Mapping([Field(key, Mapping([]))]), rest)
  {
    var recs := [Record(indent, key + ":")] + rest;
    var f := Field(key, Mapping([]));
    assert recs[1..] == rest;
    BareSplit(key);
    assert ParseValue("", rest, indent) == Parsed(Mapping([]), rest);
    assert ParseField(key + ":", rest, indent) == Parsed(f, rest);
    PutNew([], f);
    assert ParseFields(rest, indent, [f]) == Parsed(Mapping([f]), rest);
  }

  lemma {:induction false} BareSplit(key: string)
    requires KeyOk(key)
    ensures SplitKeyValue(key + ":") == Ok((key, "")) && !IsDash(key + ":")
  {
    assert key + ":" + "" == key + ":";
    SplitText(key, "");
    assert |key| >= 2 ==> (key + ":")[..2] == key[..2];
  }
}
