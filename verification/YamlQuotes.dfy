/**
 Quoted text under the validator's two scanners: which texts are read as one
 key, which as free of comments, and where the two scanners differ.
 */
module YamlQuotes {
  import opened Wrappers
  import opened Text
  import opened YamlSubset
  import opened YamlRoundTrip
  import opened YamlText

  // ---------------------------------------------------------------- keys

  /** `text[i]` and `text[j]` are a pair of quotes of one kind with none of that kind between, and not doubled. */
  predicate Pair(text: string, i: nat, j: nat) {
    && i < j < |text| && text[i] == text[j] && (text[i] == '\'' || text[i] == '\"')
    && (forall k :: i < k < j ==> text[k] != text[i])
    && (text[i] == '\'' && j + 1 < |text| ==> text[j + 1] != '\'')
  }

  /** From `i` on the text consists of quoted stretches and of characters that are neither quotes nor colons. */
  ghost predicate IsKey(text: string, i: nat)
    requires i <= |text|
    decreases |text| - i
  {
    || i == |text|
    || (text[i] != '\'' && text[i] != '\"' && text[i] != ':' && IsKey(text, i + 1))
    || exists j: nat :: Pair(text, i, j) && IsKey(text, j + 1)
  }

  /** A stretch of the key that leaves the quotes as they are. */
  lemma {:induction false} KeyRun(key: string, i: nat, j: nat, q: Quotes)
    requires i <= j <= |key| && KeyScan(key, j, q)
    requires forall k :: i <= k < j ==> q.Next(key, k) == q && (key[k] == ':' ==> q.Open())
    ensures KeyScan(key, i, q)
    decreases j - i
  {
    if i < j {
      assert q.Next(key, i) == q;
      KeyRun(key, i + 1, j, q);
    }
  }

  lemma {:induction false} QuotedRun(key: string, i: nat, j: nat)
    requires Pair(key, i, j) && KeyScan(key, j + 1, OUTSIDE)
    ensures KeyScan(key, i, OUTSIDE)
  {
    var q := Quotes(key[i] == '\'', key[i] == '\"');
    assert OUTSIDE.Next(key, i) == q && q.Next(key, j) == OUTSIDE;
    KeyRun(key, i + 1, j, q);
  }

  lemma {:induction false} KeyFrom(key: string, i: nat)
    requires i <= |key| && IsKey(key, i)
    ensures KeyScan(key, i, OUTSIDE)
    decreases |key| - i
  {
    if i < |key| {
      if j: nat :| Pair(key, i, j) && IsKey(key, j + 1) {
        KeyFrom(key, j + 1);
        QuotedRun(key, i, j);
      } else {
        KeyFrom(key, i + 1);
      }
    }
  }

  /**
   A key made of plain and quoted stretches is one key: colons between quotes
   do not split it, and the colon behind it does, whatever follows.
   */
  lemma {:induction false} QuotedKeyIsOne(key: string, x: string)
    requires IsKey(key, 0)
    ensures FindColon(key + ":" + x, 0, OUTSIDE) == Some(|key|)
    ensures Trimmed(key) && !IsDash(key) ==> KeyOk(key) && SplitKeyValue(key + ":" + x) == Ok((key, Strip(x)))
  {
    KeyFrom(key, 0);
    ColonAfterKey(key, x, 0, OUTSIDE);
    if Trimmed(key) && !IsDash(key) {
      SplitText(key, x);
    }
  }

  // ---------------------------------------------------------------- comments

  /** From `k` to `j` every single quote is doubled. */
  predicate SingleBody(text: string, k: nat, j: nat)
    requires k <= j <= |text|
    decreases j - k
  {
    || k == j
    || (text[k] != '\'' && SingleBody(text, k + 1, j))
    || (k + 2 <= j && text[k] == '\'' && text[k + 1] == '\'' && SingleBody(text, k + 2, j))
  }

  /** From `k` to `j` a backslash takes the next character with it, and no other double quote occurs. */
  predicate DoubleBody(text: string, k: nat, j: nat)
    requires k <= j <= |text|
    decreases j - k
  {
    || k == j
    || (text[k] != '\"' && text[k] != '\\' && DoubleBody(text, k + 1, j))
    || (k + 2 <= j && text[k] == '\\' && DoubleBody(text, k + 2, j))
  }

  /** `text[i..j + 1]` is a quoted stretch. */
  predicate Stretch(text: string, i: nat, j: nat) {
    && i < j < |text| && text[i] == text[j]
    && (|| (text[i] == '\'' && SingleBody(text, i + 1, j) && (j + 1 < |text| ==> text[j + 1] != '\''))
        || (text[i] == '\"' && DoubleBody(text, i + 1, j) && (i > 0 ==> text[i - 1] != '\\')))
  }

  /** From `i` on: quoted stretches, and characters that are neither quotes nor a hash at the start or after a blank. */
  ghost predicate IsText(text: string, i: nat)
    requires i <= |text|
    decreases |text| - i
  {
    || i == |text|
    || (&& text[i] != '\'' && text[i] != '\"' && (text[i] == '#' ==> i > 0 && !IsSpace(text[i - 1]))
        && IsText(text, i + 1))
    || exists j: nat :: Stretch(text, i, j) && IsText(text, j + 1)
  }

  lemma {:induction false} SingleRun(text: string, k: nat, j: nat)
    requires k <= j < |text| && SingleBody(text, k, j) && CommentFree(text, j, Quotes(true, false))
    ensures CommentFree(text, k, Quotes(true, false))
    decreases j - k
  {
    if k < j {
      SingleRun(text, if text[k] == '\'' then k + 2 else k + 1, j);
    }
  }

  /** An even number of backslashes stands before every character that is not escaped. */
  lemma {:induction false} DoubleRun(text: string, k: nat, j: nat)
    requires k <= j < |text| && DoubleBody(text, k, j) && Backslashes(text, k) % 2 == 0
    requires Backslashes(text, j) % 2 == 0 ==> CommentFree(text, j, Quotes(false, true))
    ensures CommentFree(text, k, Quotes(false, true))
    decreases j - k
  {
    if k < j {
      assert Backslashes(text, k + 1) == if text[k] == '\\' then 1 + Backslashes(text, k) else 0;
      DoubleRun(text, if text[k] == '\\' then k + 2 else k + 1, j);
    }
  }

  lemma {:induction false} StretchRun(text: string, i: nat, j: nat)
    requires Stretch(text, i, j) && CommentFree(text, j + 1, OUTSIDE)
    ensures CommentFree(text, i, OUTSIDE)
  {
    if text[i] == '\'' {
      SingleRun(text, i + 1, j);
    } else {
      DoubleRun(text, i + 1, j);
    }
  }

  lemma {:induction false} TextFrom(text: string, i: nat)
    requires i <= |text| && IsText(text, i)
    ensures CommentFree(text, i, OUTSIDE)
    decreases |text| - i
  {
    if i < |text| {
      if j: nat :| Stretch(text, i, j) && IsText(text, j + 1) {
        TextFrom(text, j + 1);
        StretchRun(text, i, j);
      } else {
        TextFrom(text, i + 1);
      }
    }
  }

  lemma {:induction false} FreeIsUnmarked(text: string, i: nat, q: Quotes)
    requires i <= |text| && CommentFree(text, i, q)
    ensures Unmarked(text, i, q)
    decreases |text| - i
  {
    if i < |text| {
      FreeIsUnmarked(text, NextIndex(text, i, q), NextQuotes(text, i, q));
    }
  }

  /**
   Text made of plain and quoted stretches holds no comment and closes its
   quotes: hashes between quotes do not count, doubled single quotes and
   backslashed double quotes do not end a stretch. Such a line is read back
   whole, and a comment behind it is cut off.
   */
  lemma {:induction false} QuotedTextHoldsNoComment(text: string, indent: nat, trailer: Trailer)
    requires IsText(text, 0) && Trimmed(text) && trailer.Valid()
    ensures LineRecords(Spaces(indent) + text + trailer.Text()) == Ok([Record(indent, text)])
    ensures CommentFree(text, 0, OUTSIDE)
  {
    TextFrom(text, 0);
    FreeIsUnmarked(text, 0, OUTSIDE);
    LineInverts(Record(indent, text), trailer);
  }

  // ---------------------------------------------------------------- where the scanners differ

  /** Outside single quotes, text without single quotes leaves them closed, up to a colon that is found in it. */
  lemma {:induction false} NotSingle(text: string, i: nat, n: nat, q: Quotes) returns (end: Quotes)
    requires i + n <= |text| && !q.single && forall k :: i <= k < i + n ==> text[k] != '\''
    ensures !end.single
    ensures var r := FindColon(text, i, q); r == FindColon(text, i + n, end) || (r.Some? && r.value < i + n)
    decreases n
  {
    end := q;
    if n > 0 && !(text[i] == ':' && !q.Open()) {
      end := NotSingle(text, i + 1, n - 1, q.Next(text, i));
    }
  }

  lemma {:induction false} SkipQuoted(text: string, i: nat, n: nat)
    requires i + n <= |text| && forall k :: i <= k < i + n ==> text[k] != '\''
    ensures FindColon(text, i, Quotes(true, false)) == FindColon(text, i + n, Quotes(true, false))
    decreases n
  {
    if n > 0 {
      SkipQuoted(text, i + 1, n - 1);
    }
  }

  /**
   The splitter does not step over both quotes of a doubled one, as the comment
   scanner does. So a single-quoted key that holds one quote is split at the
   colon behind it if and only if that quote is the last character of the key.
   */
  lemma {:induction false} DoubledQuoteEndsKey(a: string, b: string, x: string)
    requires '\'' !in a && '\'' !in b
    ensures var key := "'" + a + "''" + b + "'";
            FindColon(key + ":" + x, 0, OUTSIDE) == Some(|key|) <==> b == ""
  {
    var key := "'" + a + "''" + b + "'";
    var text, n, m := key + ":" + x, |a|, |b|;
    var inside := Quotes(true, false);
    assert text[0] == text[n + 1] == text[n + 2] == text[n + 3 + m] == '\'' && text[n + 4 + m] == ':';
    assert forall k :: 1 <= k < n + 1 ==> text[k] == a[k - 1] && text[k] in a;
    assert forall k :: n + 3 <= k < n + 3 + m ==> text[k] == b[k - n - 3] && text[k] in b;
    SkipQuoted(text, 1, n);
    assert FindColon(text, 0, OUTSIDE) == FindColon(text, n + 2, inside);
    if b == "" {
      assert FindColon(text, n + 3, inside) == FindColon(text, n + 4, OUTSIDE);
    } else {
      assert FindColon(text, n + 2, inside) == FindColon(text, n + 3, OUTSIDE);
      var end := NotSingle(text, n + 3, m, OUTSIDE);
      assert end.Next(text, n + 3 + m).Open();
    }
  }

  /** For example, this key is read by the comment scanner but not by the splitter. */
  lemma {:induction false} ScannersDiffer()
    ensures CommentFree("'a''b': c", 0, OUTSIDE)
    ensures SplitKeyValue("'a''b': c") == Err(ExpectedKeyValue)
  {
    var text := "'a''b': c";
    var inside := Quotes(true, false);
    assert CommentFree(text, 6, OUTSIDE);
    assert CommentFree(text, 2, inside);
    assert FindColon(text, 6, inside) == None;
    assert FindColon(text, 4, OUTSIDE) == None;
    assert FindColon(text, 2, inside) == None;
  }
}
