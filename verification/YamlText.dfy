/** From lines to records: comment stripping, blank lines, indentation; and the text-level round trip. */
module YamlText {
  import opened Wrappers
  import opened Text
  import opened YamlSubset
  import YamlParser
  import opened YamlRoundTrip

  // ---------------------------------------------------------------- comments

  /** How many backslashes stand directly before `i`. */
  function Backslashes(line: string, i: nat): nat
    requires i <= |line|
  {
    if i == 0 || line[i - 1] != '\\' then 0 else 1 + Backslashes(line, i - 1)
  }

  /** A doubled single quote inside single quotes is stepped over. */
  predicate Doubled(line: string, i: nat, q: Quotes)
    requires i < |line|
  {
    line[i] == '\'' && !q.double && q.single && i + 1 < |line| && line[i + 1] == '\''
  }

  function NextQuotes(line: string, i: nat, q: Quotes): Quotes
    requires i < |line|
  {
    if Doubled(line, i, q) then q
    else if line[i] == '\'' && !q.double then Quotes(!q.single, q.double)
    else if line[i] == '\"' && !q.single && Backslashes(line, i) % 2 == 0 then Quotes(q.single, !q.double)
    else q
  }

  function NextIndex(line: string, i: nat, q: Quotes): (j: nat)
    requires i < |line|
    ensures i < j <= |line|
  {
    if Doubled(line, i, q) then i + 2 else i + 1
  }

  predicate StartsComment(line: string, i: nat, q: Quotes)
    requires i < |line|
  {
    line[i] == '#' && !q.Open() && (i == 0 || IsSpace(line[i - 1]))
  }

  function FindComment(line: string, i: nat, q: Quotes): (r: nat)
    requires i <= |line|
    ensures i <= r <= |line|
    decreases |line| - i
  {
    if i == |line| || StartsComment(line, i, q) then i
    else FindComment(line, NextIndex(line, i, q), NextQuotes(line, i, q))
  }

  function StripComment(line: string): string {
    TrimEnd(line[..FindComment(line, 0, OUTSIDE)], PythonBlanks)
  }

  method CountBackslashes(line: string, i: nat) returns (n: nat)
    requires i <= |line|
    ensures n == Backslashes(line, i)
  {
    n := 0;
    var probe := i;
    while probe > 0 && line[probe - 1] == '\\'
      invariant 0 <= probe <= i
      invariant Backslashes(line, i) == n + Backslashes(line, probe)
    {
      n := n + 1;
      probe := probe - 1;
    }
  }

  /** The scanning loop of the comment stripper. */
  method ScanComment(line: string) returns (end: nat)
    ensures end == FindComment(line, 0, OUTSIDE)
  {
    var q := OUTSIDE;
    end := 0;
    while end < |line|
      invariant end <= |line|
      invariant FindComment(line, 0, OUTSIDE) == FindComment(line, end, q)
    {
      var c := line[end];
      if c == '\'' && !q.double {
        if q.single && end + 1 < |line| && line[end + 1] == '\'' {
          end := end + 2;
          continue;
        }
        q := Quotes(!q.single, q.double);
      } else if c == '\"' && !q.single {
        var backslashes := CountBackslashes(line, end);
        if backslashes % 2 == 0 {
          q := Quotes(q.single, !q.double);
        }
      } else if c == '#' && !q.single && !q.double {
        if end == 0 || IsSpace(line[end - 1]) {
          return;
        }
      }
      end := end + 1;
    }
  }

  // ---------------------------------------------------------------- loading

  function LeadingSpaces(line: string): (n: nat)
    ensures n <= |line|
  {
    if line == "" || line[0] != ' ' then 0 else 1 + LeadingSpaces(line[1..])
  }

  /** The record of one line: none for a blank or comment-only line. */
  function LineRecords(raw: string): Result<seq<Record>, YamlError> {
    if raw != "" && raw[0] == '\t' then Err(TabIndent)
    else
      var line := StripComment(raw);
      if Strip(line) == "" then Ok([]) else Ok([Record(LeadingSpaces(line), Strip(line))])
  }

  function LineResults(lines: seq<string>): (rs: seq<Result<seq<Record>, YamlError>>)
    ensures |rs| == |lines|
    ensures forall i :: 0 <= i < |lines| ==> rs[i] == LineRecords(lines[i])
  {
    if lines == [] then [] else LineResults(lines[..|lines| - 1]) + [LineRecords(lines[|lines| - 1])]
  }

  /** All records in order, or the first error. */
  function Gather(rs: seq<Result<seq<Record>, YamlError>>): Result<seq<Record>, YamlError> {
    if rs == [] then Ok([])
    else
      var front, last := Gather(rs[..|rs| - 1]), rs[|rs| - 1];
      if front.Err? then front
      else if last.Err? then last
      else Ok(front.value + last.value)
  }

  function Records(lines: seq<string>): Result<seq<Record>, YamlError> {
    Gather(LineResults(lines))
  }

  method StripLine(line: string) returns (clean: string)
    ensures clean == StripComment(line)
  {
    var end := ScanComment(line);
    clean := TrimEnd(line[..end], PythonBlanks);
  }

  method ReadLine(raw: string) returns (r: Result<seq<Record>, YamlError>)
    ensures r == LineRecords(raw)
  {
    if raw != "" && raw[0] == '\t' {
      return Err(TabIndent);
    }
    var line := StripLine(raw);
    if Strip(line) == "" {
      return Ok([]);
    }
    r := Ok([Record(LeadingSpaces(line), Strip(line))]);
  }

  method LoadRecords(lines: seq<string>) returns (r: Result<seq<Record>, YamlError>)
    ensures r == Records(lines)
  {
    var records: seq<Record> := [];
    ghost var rs := LineResults(lines);
    for i := 0 to |lines|
      invariant Gather(rs[..i]) == Ok(records)
    {
      assert rs[..i + 1][..i] == rs[..i];
      var more := ReadLine(lines[i]);
      if more.Err? {
        ErrorPersists(rs, i + 1);
        return Err(more.error);
      }
      records := records + more.value;
    }
    assert rs[..|rs|] == rs;
    r := Ok(records);
  }

  lemma {:induction false} ErrorPersists(rs: seq<Result<seq<Record>, YamlError>>, n: nat)
    requires n <= |rs| && Gather(rs[..n]).Err?
    ensures Gather(rs) == Gather(rs[..n])
  {
    if n == |rs| {
      assert rs[..n] == rs;
    } else {
      assert rs[..|rs| - 1][..n] == rs[..n];
      ErrorPersists(rs[..|rs| - 1], n);
    }
  }

  function LoadYaml(lines: seq<string>): Result<Value, YamlError> {
    var records := Records(lines);
    if records.Err? then Err(records.error) else ParseRecords(records.value)
  }

  method Load(lines: seq<string>) returns (r: Result<Value, YamlError>)
    ensures r == LoadYaml(lines)
  {
    var records := LoadRecords(lines);
    if records.Err? {
      return Err(records.error);
    }
    r := YamlParser.ParseDocument(records.value);
  }

  // ---------------------------------------------------------------- the text-level round trip

  function Spaces(n: nat): (s: string)
    ensures |s| == n && forall i :: 0 <= i < n ==> s[i] == ' '
  {
    if n == 0 then "" else " " + Spaces(n - 1)
  }

  /** No comment mark outside quotes, and every quote closed at the end. */
  predicate CommentFree(text: string, i: nat, q: Quotes)
    requires i <= |text|
    decreases |text| - i
  {
    if i == |text| then !q.Open()
    else !StartsComment(text, i, q) && CommentFree(text, NextIndex(text, i, q), NextQuotes(text, i, q))
  }

  /** No comment mark outside quotes; a quote may be left open. */
  predicate Unmarked(text: string, i: nat, q: Quotes)
    requires i <= |text|
    decreases |text| - i
  {
    i < |text| ==> !StartsComment(text, i, q) && Unmarked(text, NextIndex(text, i, q), NextQuotes(text, i, q))
  }

  /** What may follow the content: blanks, and after at least one blank a comment. */
  datatype Trailer = Trailer(blanks: string, comment: Option<string>) {
    predicate Valid() {
      && AllSpace(blanks)
      && (comment.Some? ==> blanks != "")
    }

    function Text(): string { blanks + CommentText(comment) }
  }

  predicate AllSpace(s: string) { forall i :: 0 <= i < |s| ==> IsSpace(s[i]) }

  function CommentText(comment: Option<string>): string { if comment.Some? then "#" + comment.value else "" }

  /** One line of a document: a record, or a line that holds nothing but blanks and perhaps a comment. */
  datatype Line = Content(rec: Record, trailer: Trailer) | Filler(blanks: string, comment: Option<string>) {
    /** A comment needs the content's quotes closed, and a tab may not start a line. */
    predicate Valid() {
      match this
      case Content(rec, trailer) =>
        trailer.Valid() && (trailer.comment.Some? ==> CommentFree(rec.content, 0, OUTSIDE))
      case Filler(blanks, _) => AllSpace(blanks) && (blanks != "" ==> blanks[0] != '\t')
    }

    function Text(): string {
      match this
      case Content(rec, trailer) => LineOf(rec, trailer)
      case Filler(blanks, comment) => blanks + CommentText(comment)
    }

    function Records(): seq<Record> {
      match this
      case Content(rec, _) => [rec]
      case Filler(_, _) => []
    }
  }

  function LineOf(rec: Record, trailer: Trailer): string {
    Spaces(rec.indent) + rec.content + trailer.Text()
  }

  function Texts(doc: seq<Line>): (lines: seq<string>)
    ensures |lines| == |doc|
    ensures forall i :: 0 <= i < |doc| ==> lines[i] == doc[i].Text()
  {
    if doc == [] then [] else Texts(doc[..|doc| - 1]) + [doc[|doc| - 1].Text()]
  }

  /** The records of a document, in order. */
  function Contents(doc: seq<Line>): seq<Record> {
    if doc == [] then [] else Contents(doc[..|doc| - 1]) + doc[|doc| - 1].Records()
  }

  // ---------------------------------------------------------------- scanning a text inside a line

  /** Text that may stand before or after a scanned text without changing how that is scanned. */
  predicate Before(pre: string) { pre == "" || IsSpace(pre[|pre| - 1]) }

  predicate After(post: string) { post == "" || post[0] != '\'' }

  lemma {:induction false} BackslashesShift(pre: string, text: string, post: string, i: nat)
    requires Before(pre) && i <= |text|
    ensures Backslashes(pre + text + post, |pre| + i) == Backslashes(text, i)
  {
    var line := pre + text + post;
    if i > 0 {
      assert line[|pre| + i - 1] == text[i - 1];
      BackslashesShift(pre, text, post, i - 1);
    } else if pre != "" {
      assert line[|pre| - 1] == pre[|pre| - 1];
    }
  }

  lemma {:induction false} ScanShift(pre: string, text: string, post: string, i: nat, q: Quotes)
    requires Before(pre) && After(post) && i < |text|
    ensures var line, n := pre + text + post, |pre|;
            && StartsComment(line, n + i, q) == StartsComment(text, i, q)
            && NextIndex(line, n + i, q) == n + NextIndex(text, i, q)
            && NextQuotes(line, n + i, q) == NextQuotes(text, i, q)
  {
    var line, n := pre + text + post, |pre|;
    BackslashesShift(pre, text, post, i);
    assert line[n + i] == text[i];
    if i > 0 { assert line[n + i - 1] == text[i - 1]; } else if n > 0 { assert line[n - 1] == pre[n - 1]; }
    if i + 1 < |text| {
      assert line[n + i + 1] == text[i + 1];
    } else if post != "" {
      assert line[n + i + 1] == post[0];
    }
  }

  lemma {:induction false} ScanContent(pre: string, text: string, post: string, i: nat, q: Quotes)
    requires Before(pre) && After(post) && i <= |text| && CommentFree(text, i, q)
    ensures FindComment(pre + text + post, |pre| + i, q) == FindComment(pre + text + post, |pre| + |text|, OUTSIDE)
    decreases |text| - i
  {
    if i < |text| {
      ScanShift(pre, text, post, i, q);
      ScanContent(pre, text, post, NextIndex(text, i, q), NextQuotes(text, i, q));
    }
  }

  /** Blanks to the end of the line are scanned through in any state. */
  lemma {:induction false} ScanToEnd(line: string, k: nat, q: Quotes)
    requires k <= |line| && forall j :: k <= j < |line| ==> IsSpace(line[j])
    ensures FindComment(line, k, q) == |line|
    decreases |line| - k
  {
    if k < |line| {
      assert IsSpace(line[k]);
      ScanToEnd(line, k + 1, q);
    }
  }

  /** An unmarked text with nothing but blanks after it is scanned to the end of the line. */
  lemma {:induction false} ScanOpen(pre: string, text: string, blanks: string, i: nat, q: Quotes)
    requires Before(pre) && AllSpace(blanks) && i <= |text| && Unmarked(text, i, q)
    ensures FindComment(pre + text + blanks, |pre| + i, q) == |pre + text + blanks|
    decreases |text| - i
  {
    var line := pre + text + blanks;
    if i < |text| {
      assert After(blanks);
      ScanShift(pre, text, blanks, i, q);
      ScanOpen(pre, text, blanks, NextIndex(text, i, q), NextQuotes(text, i, q));
    } else {
      forall j | |pre| + i <= j < |line| ensures IsSpace(line[j]) {
        assert line[j] == blanks[j - |pre| - |text|];
      }
      ScanToEnd(line, |pre| + i, q);
    }
  }

  /** After a text free of comments, an unmarked rest leaves the whole unmarked. */
  lemma {:induction false} UnmarkedInside(pre: string, text: string, post: string, i: nat, q: Quotes)
    requires Before(pre) && After(post) && i <= |text| && CommentFree(text, i, q)
    requires Unmarked(pre + text + post, |pre| + |text|, OUTSIDE)
    ensures Unmarked(pre + text + post, |pre| + i, q)
    decreases |text| - i
  {
    if i < |text| {
      ScanShift(pre, text, post, i, q);
      UnmarkedInside(pre, text, post, NextIndex(text, i, q), NextQuotes(text, i, q));
    }
  }

  lemma {:induction false} UnmarkedLast(pre: string, text: string, i: nat, q: Quotes)
    requires Before(pre) && i <= |text| && Unmarked(text, i, q)
    ensures Unmarked(pre + text, |pre| + i, q)
    decreases |text| - i
  {
    assert pre + text + "" == pre + text;
    if i < |text| {
      ScanShift(pre, text, "", i, q);
      UnmarkedLast(pre, text, NextIndex(text, i, q), NextQuotes(text, i, q));
    }
  }

  /** A character that is neither a quote nor a comment mark is stepped over. */
  lemma {:induction false} UnmarkedStep(line: string, i: nat)
    requires i < |line| && line[i] != '\'' && line[i] != '\"' && line[i] != '#'
    ensures Unmarked(line, i, OUTSIDE) == Unmarked(line, i + 1, OUTSIDE)
  {
  }

  lemma {:induction false} UnmarkedDash(text: string)
    requires Unmarked(text, 0, OUTSIDE)
    ensures Unmarked("- " + text, 0, OUTSIDE)
  {
    UnmarkedLast("- ", text, 0, OUTSIDE);
    UnmarkedStep("- " + text, 1);
    UnmarkedStep("- " + text, 0);
  }

  lemma {:induction false} UnmarkedKey(key: string)
    requires CommentFree(key, 0, OUTSIDE)
    ensures Unmarked(key + ":", 0, OUTSIDE)
  {
    assert "" + key + ":" == key + ":";
    UnmarkedStep(key + ":", |key|);
    UnmarkedInside("", key, ":", 0, OUTSIDE);
  }

  lemma {:induction false} UnmarkedPair(key: string, value: string)
    requires CommentFree(key, 0, OUTSIDE) && Unmarked(value, 0, OUTSIDE)
    ensures Unmarked(key + ":" + (" " + value), 0, OUTSIDE)
  {
    var line, pre := key + ":" + (" " + value), key + ": ";
    assert pre + value == line && "" + key + (": " + value) == line;
    assert line[|key|] == ':' && line[|key| + 1] == ' ';
    UnmarkedLast(pre, value, 0, OUTSIDE);
    UnmarkedStep(line, |key| + 1);
    UnmarkedStep(line, |key|);
    UnmarkedInside("", key, ": " + value, 0, OUTSIDE);
  }

  /** Outside quotes, blanks do not move the scanner's state. */
  lemma {:induction false} ScanBlanks(line: string, i: nat, k: nat)
    requires i <= k <= |line| && forall j :: i <= j < k ==> IsSpace(line[j])
    ensures FindComment(line, i, OUTSIDE) == FindComment(line, k, OUTSIDE)
    decreases k - i
  {
    if i < k {
      assert IsSpace(line[i]);
      ScanBlanks(line, i + 1, k);
    }
  }

  lemma {:induction false} TrailerStart(t: Trailer)
    requires t.Valid()
    ensures t.Text() == "" || IsSpace(t.Text()[0])
  {
  }

  lemma {:induction false} ScanTrailer(front: string, t: Trailer)
    requires t.Valid()
    ensures FindComment(front + t.Text(), |front|, OUTSIDE) == |front| + |t.blanks|
  {
    var line, m := front + t.Text(), |front| + |t.blanks|;
    forall j | |front| <= j < m ensures IsSpace(line[j]) {
      assert line[j] == t.blanks[j - |front|];
    }
    ScanBlanks(line, |front|, m);
    if t.comment.Some? {
      assert line[m] == '#' && line[m - 1] == t.blanks[|t.blanks| - 1];
    } else {
      assert |line| == m;
    }
  }

  lemma {:induction false} ScanIndent(n: nat, text: string)
    ensures FindComment(Spaces(n) + text, 0, OUTSIDE) == FindComment(Spaces(n) + text, n, OUTSIDE)
  {
    var line := Spaces(n) + text;
    forall j | 0 <= j < n ensures IsSpace(line[j]) {
      assert line[j] == ' ';
    }
    ScanBlanks(line, 0, n);
  }

  lemma {:induction false} ScanToContent(rec: Record, t: Trailer)
    ensures FindComment(LineOf(rec, t), 0, OUTSIDE) == FindComment(LineOf(rec, t), rec.indent, OUTSIDE)
  {
    assert LineOf(rec, t) == Spaces(rec.indent) + (rec.content + t.Text());
    ScanIndent(rec.indent, rec.content + t.Text());
  }

  lemma {:induction false} ScanToTrailer(rec: Record, t: Trailer)
    requires CommentFree(rec.content, 0, OUTSIDE) && t.Valid()
    ensures FindComment(LineOf(rec, t), rec.indent, OUTSIDE)
         == FindComment(LineOf(rec, t), rec.indent + |rec.content|, OUTSIDE)
  {
    TrailerStart(t);
    ScanContent(Spaces(rec.indent), rec.content, t.Text(), 0, OUTSIDE);
  }

  /** The content may stand before this trailer: unmarked, and with its quotes closed if a comment follows. */
  predicate Fits(content: string, t: Trailer) {
    && t.Valid()
    && Unmarked(content, 0, OUTSIDE)
    && (t.comment.Some? ==> CommentFree(content, 0, OUTSIDE))
  }

  /** The scan of a rendered line stops after the blanks that follow the content. */
  lemma {:induction false} ScanLine(rec: Record, t: Trailer)
    requires Fits(rec.content, t)
    ensures FindComment(LineOf(rec, t), 0, OUTSIDE) == rec.indent + |rec.content| + |t.blanks|
  {
    ScanToContent(rec, t);
    if t.comment.Some? {
      ScanToTrailer(rec, t);
      ScanTrailer(Spaces(rec.indent) + rec.content, t);
    } else {
      assert t.Text() == t.blanks;
      ScanOpen(Spaces(rec.indent), rec.content, t.blanks, 0, OUTSIDE);
    }
  }

  lemma {:induction false} LeadingOf(n: nat, text: string)
    requires text != "" && text[0] != ' '
    ensures LeadingSpaces(Spaces(n) + text) == n
  {
    var line := Spaces(n) + text;
    if n > 0 {
      assert line[1..] == Spaces(n - 1) + text;
      LeadingOf(n - 1, text);
    } else {
      assert line == text;
    }
  }

  lemma {:induction false} TakeFront(front: string, t: Trailer)
    ensures (front + t.Text())[..|front| + |t.blanks|] == front + t.blanks
  {
  }

  lemma {:induction false} StripInverts(rec: Record, t: Trailer)
    requires Trimmed(rec.content) && Fits(rec.content, t)
    ensures StripComment(LineOf(rec, t)) == Spaces(rec.indent) + rec.content
  {
    var raw, clean := LineOf(rec, t), Spaces(rec.indent) + rec.content;
    TakeFront(clean, t);
    assert clean[|clean| - 1] == rec.content[|rec.content| - 1];
    TrimEndPadded(clean, t.blanks, PythonBlanks);
    ScanLine(rec, t);
  }

  lemma {:induction false} StripSpaces(n: nat, text: string)
    requires Trimmed(text)
    ensures Strip(Spaces(n) + text) == text && LeadingSpaces(Spaces(n) + text) == n
  {
    var sp := Spaces(n);
    assert sp + text + "" == sp + text;
    TrimPadded(sp, text, "", PythonBlanks);
    LeadingOf(n, text);
  }

  lemma {:induction false} LineInverts(rec: Record, t: Trailer)
    requires Trimmed(rec.content) && Fits(rec.content, t)
    ensures LineRecords(LineOf(rec, t)) == Ok([rec])
  {
    var raw := LineOf(rec, t);
    assert raw[0] == if rec.indent > 0 then ' ' else rec.content[0];
    StripInverts(rec, t);
    StripSpaces(rec.indent, rec.content);
  }

  lemma {:induction false} TrimEndSpace(s: string)
    requires AllSpace(s)
    ensures TrimEnd(s, PythonBlanks) == ""
  {
    if s != "" {
      assert IsSpace(s[|s| - 1]);
      TrimEndSpace(s[..|s| - 1]);
    }
  }

  /** A blank or comment-only line has no record. */
  lemma {:induction false} FillerVanishes(blanks: string, comment: Option<string>)
    requires AllSpace(blanks) && (blanks != "" ==> blanks[0] != '\t')
    ensures LineRecords(blanks + CommentText(comment)) == Ok([])
  {
    var raw, n := blanks + CommentText(comment), |blanks|;
    ScanBlanks(raw, 0, n);
    if comment.Some? {
      assert raw[n] == '#' && (n > 0 ==> raw[n - 1] == blanks[n - 1]);
    }
    assert FindComment(raw, 0, OUTSIDE) == n && raw[..n] == blanks;
    TrimEndSpace(blanks);
  }

  /** A line of text that is read back whole. */
  predicate LineOk(content: string) { Trimmed(content) && Unmarked(content, 0, OUTSIDE) }

  predicate LinesOk(recs: seq<Record>) { forall i :: 0 <= i < |recs| ==> LineOk(recs[i].content) }

  lemma {:induction false} GatherLines(rs: seq<Result<seq<Record>, YamlError>>, doc: seq<Line>)
    requires |rs| == |doc| && forall i :: 0 <= i < |doc| ==> rs[i] == Ok(doc[i].Records())
    ensures Gather(rs) == Ok(Contents(doc))
  {
    if doc != [] {
      GatherLines(rs[..|doc| - 1], doc[..|doc| - 1]);
    }
  }

  lemma {:induction false} ContentListed(doc: seq<Line>, i: nat)
    requires i < |doc| && doc[i].Content?
    ensures doc[i].rec in Contents(doc)
  {
    if i < |doc| - 1 {
      ContentListed(doc[..|doc| - 1], i);
    }
  }

  /** Reading the lines of a document gives its records, whatever blanks and comments stand after and between them. */
  lemma {:induction false} LinesInvert(doc: seq<Line>)
    requires LinesOk(Contents(doc)) && forall i :: 0 <= i < |doc| ==> doc[i].Valid()
    ensures Records(Texts(doc)) == Ok(Contents(doc))
  {
    var lines := Texts(doc);
    forall i | 0 <= i < |doc| ensures LineRecords(lines[i]) == Ok(doc[i].Records()) {
      match doc[i]
      case Content(rec, trailer) =>
        ContentListed(doc, i);
        assert LineOk(rec.content);
        LineInverts(rec, trailer);
      case Filler(blanks, comment) => FillerVanishes(blanks, comment);
    }
    GatherLines(LineResults(lines), doc);
  }

  // ---------------------------------------------------------------- rendered records are read back whole

  /** No key and no scalar holds a comment mark, and keys close their quotes. */
  predicate Uncommented(v: Value)
    decreases v
  {
    match v
    case Scalar(raw) => Unmarked(raw, 0, OUTSIDE)
    case Mapping(fields) =>
      forall i :: 0 <= i < |fields| ==> CommentFree(fields[i].key, 0, OUTSIDE) && Uncommented(fields[i].value)
    case List(items) => forall i :: 0 <= i < |items| ==> Uncommented(items[i])
  }

  predicate FieldsUncommented(fields: seq<Field>) {
    forall i :: 0 <= i < |fields| ==> CommentFree(fields[i].key, 0, OUTSIDE) && Uncommented(fields[i].value)
  }

  lemma {:induction false} InlineFree(v: Value)
    requires Uncommented(v)
    ensures Unmarked(Inline(v), 0, OUTSIDE)
  {
    if v.Mapping? && v.fields == [] {
      UnmarkedStep("{}", 1);
      UnmarkedStep("{}", 0);
    } else if v.List? && v.items == [] {
      UnmarkedStep("[]", 1);
      UnmarkedStep("[]", 0);
    }
  }

  lemma {:induction false} HeadOk(f: Field)
    requires KeyOk(f.key) && Renderable(f.value) && CommentFree(f.key, 0, OUTSIDE) && Uncommented(f.value)
    ensures LineOk(Head(f))
  {
    HeadShape(f);
    InlineFree(f.value);
    if IsBlock(f.value) {
      assert Head(f) == f.key + ":";
      UnmarkedKey(f.key);
    } else {
      UnmarkedPair(f.key, Inline(f.value));
    }
  }

  lemma {:induction false} BlockOk(v: Value, indent: nat)
    requires Renderable(v) && Uncommented(v)
    ensures LinesOk(RenderBlock(v, indent))
    decreases v, 4
  {
    match v
    case Scalar(_) =>
    case Mapping(fields) => FieldsLinesOk(fields, indent);
    case List(items) => ItemsOk(items, indent);
  }

  lemma {:induction false} FieldsLinesOk(fields: seq<Field>, indent: nat)
    requires FieldsOk(fields) && FieldsUncommented(fields)
    ensures LinesOk(RenderFields(fields, indent))
    decreases fields, 3
  {
    if fields != [] {
      HeadOk(fields[0]);
      BlockOk(fields[0].value, indent + 2);
      FieldsLinesOk(fields[1..], indent);
    }
  }

  lemma {:induction false} ItemsOk(items: seq<Value>, indent: nat)
    requires forall i :: 0 <= i < |items| ==> ItemOk(items[i]) && Renderable(items[i]) && Uncommented(items[i])
    ensures LinesOk(RenderItems(items, indent))
    decreases items, 3
  {
    if items != [] {
      ItemLinesOk(items[0], indent);
      ItemsOk(items[1..], indent);
    }
  }

  lemma {:induction false} DashOk(v: Value)
    requires ItemOk(v) && Renderable(v) && Uncommented(v)
    ensures LineOk("- " + ItemText(v))
  {
    ItemTextTrimmed(v);
    var text := "- " + ItemText(v);
    assert text[|text| - 1] == ItemText(v)[|ItemText(v)| - 1];
    if v.Mapping? && v.fields != [] {
      HeadOk(v.fields[0]);
    } else {
      InlineFree(v);
    }
    UnmarkedDash(ItemText(v));
  }

  lemma {:induction false} ItemLinesOk(v: Value, indent: nat)
    requires ItemOk(v) && Renderable(v) && Uncommented(v)
    ensures LinesOk(RenderItem(v, indent))
    decreases v, 5
  {
    ItemFirst(v, indent);
    DashOk(v);
    if v.Mapping? && v.fields != [] {
      BlockOk(v.fields[0].value, indent + 4);
      FieldsLinesOk(v.fields[1..], indent + 2);
    }
  }

  /**
   From text: any document whose records are the rendering of a value, with
   any blanks and comments after each of them and any blank or comment-only
   lines between them, loads as that value, provided no key or scalar of the
   value holds a comment mark of its own. Quotes have to be closed in keys, and
   in scalars only where a comment follows on the same line.
   */
  lemma {:induction false} LoadInvertsRender(v: Value, indent: nat, doc: seq<Line>)
    requires Renderable(v) && IsBlock(v) && Uncommented(v)
    requires Contents(doc) == RenderBlock(v, indent) && forall i :: 0 <= i < |doc| ==> doc[i].Valid()
    ensures LoadYaml(Texts(doc)) == Ok(v)
  {
    BlockOk(v, indent);
    LinesInvert(doc);
    ParseInvertsRender(v, indent);
  }
}
