/**
 A concrete tokenizer with the behaviour the codecs expect of the util
 package. The package's own implementation is not part of this model. This
 one is an assumption, used only to state the round trips of the codecs: a
 field is the text up to the next ',' or '/', and reading it consumes that
 text and its delimiter; an integer field is empty (zero) or an optionally
 signed run of base-10 digits; the record length runs through the first '/'.
 */
module StandardTokenizer {
  import opened Util
  import opened Text

  predicate IsDelimiter(c: char) {
    c == ',' || c == '/'
  }

  /** The index of the first delimiter at or after `i`, or |line| when there is none. */
  function NextDelimiter(line: string, i: nat): (j: nat)
    requires i <= |line|
    ensures i <= j <= |line|
    ensures j < |line| ==> IsDelimiter(line[j])
    ensures forall k | i <= k < j :: !IsDelimiter(line[k])
    decreases |line| - i
  {
    if i == |line| || IsDelimiter(line[i]) then i else NextDelimiter(line, i + 1)
  }

  /** The index of the first '/' at or after `i`, or |data| when there is none. */
  function NextSlash(data: string, i: nat): (j: nat)
    requires i <= |data|
    ensures i <= j <= |data|
    ensures j < |data| ==> data[j] == '/'
    ensures forall k | i <= k < j :: data[k] != '/'
    decreases |data| - i
  {
    if i == |data| || data[i] == '/' then i else NextSlash(data, i + 1)
  }

  /** The length of the record at the start of `data`: through its first '/', or all of it. */
  function GetSize(data: string): int {
    var j := NextSlash(data, 0);
    if j < |data| then j + 1 else |data|
  }

  /** The field starting at `start`: its text and the characters it occupies with its delimiter. */
  function ReadField(line: string, start: int): FieldRead<string> {
    if start < 0 || start >= |line| then FieldRead("", 0, false)
    else
      var j := NextDelimiter(line, start);
      if j == |line| then FieldRead("", 0, false) else FieldRead(line[start..j], j - start + 1, true)
  }

  /** Base-10 conversion of a field's text: empty is zero, otherwise an optional '-' and digits. */
  function ParseInt(s: string): Option<int> {
    if s == "" then Some(0)
    else if s[0] == '-' then
      if |s| > 1 && AllDigits(s[1..]) then Some(0 - DecimalValue(s[1..]) as int) else None
    else if AllDigits(s) then Some(DecimalValue(s))
    else None
  }

  /** The field starting at `start`, converted to an integer. */
  function ReadFieldAsInt(line: string, start: int): FieldRead<int> {
    var r := ReadField(line, start);
    if !r.ok then FieldRead(0, r.size, false)
    else match ParseInt(r.value)
      case None => FieldRead(0, r.size, false)
      case Some(n) => FieldRead(n, r.size, true)
  }

  const STANDARD: Tokenizer := Tokenizer(GetSize, ReadField, ReadFieldAsInt)

  /** The concrete tokenizer meets what the codecs assume of the util package. */
  lemma StandardIsSound()
    ensures STANDARD.Sound()
  {
  }

  /** Reading back the "%d" rendering of any integer gives that integer. */
  lemma ParseIntRoundTrip(n: int)
    ensures ParseInt(IntToDecimal(n)) == Some(n)
  {
    var digits := NatToDecimal(if n < 0 then -n else n);
    DecimalRoundTrip(if n < 0 then -n else n);
    if n < 0 {
      assert IntToDecimal(n)[1..] == digits;
    }
  }

  /** Where field `k` of a joined list starts, counted from the start of the list. */
  function Offset(texts: seq<string>, k: nat): nat
    requires k <= |texts|
  {
    if k == 0 then 0 else Offset(texts, k - 1) + |texts[k - 1]| + 1
  }

  lemma {:induction false} OffsetShift(texts: seq<string>, k: nat)
    requires 0 < k <= |texts|
    ensures Offset(texts, k) == |texts[0]| + 1 + Offset(texts[1..], k - 1)
  {
    if k > 1 {
      OffsetShift(texts, k - 1);
    }
  }

  /** Every field ends, with its delimiter, at or before the end of the list. */
  lemma {:induction false} OffsetBelowEnd(texts: seq<string>, k: nat)
    requires k < |texts|
    ensures Offset(texts, k) + |texts[k]| + 1 <= Offset(texts, |texts|)
    decreases |texts| - k
  {
    if k + 1 < |texts| {
      OffsetBelowEnd(texts, k + 1);
    }
  }

  /** A plain text followed by a delimiter is read as one field, wherever it stands. */
  lemma ReadPlainField(head: string, text: string, delimiter: char, rest: string)
    requires Plain(text) && IsDelimiter(delimiter)
    ensures ReadField(head + text + [delimiter] + rest, |head|)
         == FieldRead(text, |text| + 1, true)
  {
    var line := head + text + [delimiter] + rest;
    var p, q := |head|, |head| + |text|;
    assert line[p..q] == text;
    assert line[q] == delimiter;
    forall i | p <= i < q ensures !IsDelimiter(line[i]) {
      assert line[i] == text[i - p];
    }
    assert NextDelimiter(line, p) == q;
  }

  /** The first of the joined fields is read as itself; when it is the only one it ends the record. */
  lemma ReadJoinedFirst(head: string, texts: seq<string>)
    requires AllPlain(texts) && 0 < |texts|
    ensures ReadField(head + Join(texts) + "/", |head|) == FieldRead(texts[0], |texts[0]| + 1, true)
    ensures |texts| == 1 ==> |head| + |texts[0]| + 1 == |head + Join(texts) + "/"|
  {
    var delimiter := if |texts| == 1 then '/' else ',';
    var rest := if |texts| == 1 then "" else Join(texts[1..]) + "/";
    assert head + Join(texts) + "/" == head + texts[0] + [delimiter] + rest;
    assert Plain(texts[0]);
    ReadPlainField(head, texts[0], delimiter, rest);
  }

  /**
   In a record written as a head, plain fields joined by commas and a final
   '/', reading at the start of field `k` gives exactly that field and
   consumes it with its delimiter; the last field ends the record.
   */
  lemma {:induction false} ReadJoined(head: string, texts: seq<string>, k: nat)
    requires AllPlain(texts) && k < |texts|
    ensures ReadField(head + Join(texts) + "/", |head| + Offset(texts, k))
         == FieldRead(texts[k], |texts[k]| + 1, true)
    ensures k == |texts| - 1 ==>
      |head| + Offset(texts, k) + |texts[k]| + 1 == |head + Join(texts) + "/"|
    decreases k
  {
    if k == 0 {
      ReadJoinedFirst(head, texts);
    } else {
      var head' := head + texts[0] + ",";
      assert head + Join(texts) == head' + Join(texts[1..]);
      AllPlainTail(texts);
      ReadJoined(head', texts[1..], k - 1);
      OffsetShift(texts, k);
    }
  }

  /** In such a record, an integer field is read as the number its text stands for. */
  // Not a proof by induction: the attribute keeps the verifier from trying one, which runs out of resource here.
  lemma {:induction false} ReadJoinedAsInt(head: string, texts: seq<string>, k: nat, n: int)
    requires AllPlain(texts) && k < |texts| && ParseInt(texts[k]) == Some(n)
    ensures ReadFieldAsInt(head + Join(texts) + "/", |head| + Offset(texts, k))
         == FieldRead(n, |texts[k]| + 1, true)
  {
    ReadJoined(head, texts, k);
  }

  /** The concrete tokenizer reads with the functions above. */
  lemma StandardReads(line: string, at: int)
    ensures STANDARD.ReadField(line, at) == ReadField(line, at)
    ensures STANDARD.ReadFieldAsInt(line, at) == ReadFieldAsInt(line, at)
  {
  }

  /** A record that holds no '/' before its final one is measured to its end. */
  lemma GetSizeOfRecord(body: string)
    requires Unterminated(body)
    ensures GetSize(body + "/") == |body + "/"|
  {
    var data := body + "/";
    var j := NextSlash(data, 0);
    assert data[|body|] == '/';
    assert forall i | 0 <= i < |body| :: data[i] == body[i];
  }
}
