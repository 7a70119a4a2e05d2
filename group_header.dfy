/**
 The group header record (BAI2 record type 02): its fields, the validation
 rules, the parser that fills a header from a line of text, and the writer
 that renders it back.
 */
module GroupHeaders {
  import opened Util
  import opened Text
  import StandardTokenizer

  /** The field values of a group header. */
  datatype Header = Header(
    receiver: string,
    originator: string,
    groupStatus: int,
    asOfDate: string,
    asOfTime: string,
    currencyCode: string,
    asOfDateModifier: int)

  /** The header every field of which holds its zero value. */
  const EMPTY: Header := Header("", "", 0, "", "", "", 0)

  /** The fields in the order the parser assigns them. */
  const FIELD_ORDER: seq<Field> :=
    [Receiver, Originator, GroupStatus, AsOfDate, AsOfTime, CurrencyCode, AsOfDateModifier]

  // ---------------------------------------------------------------- validate

  /** The validation rules of a group header, in the order they are checked. */
  function Checks(h: Header, v: Validators): seq<Check> {
    [ Check(Originator, h.originator != ""),
      Check(GroupStatus, 0 <= h.groupStatus <= 4),
      Check(AsOfDate, h.asOfDate != "" && v.date(h.asOfDate)),
      Check(AsOfTime, h.asOfTime == "" || v.time(h.asOfTime)),
      Check(CurrencyCode, h.currencyCode == "" || v.currencyCode(h.currencyCode)),
      Check(AsOfDateModifier, 0 <= h.asOfDateModifier <= 4) ]
  }

  /** Validation of a header: the first rule it breaks, or nothing. */
  function Validate(h: Header, v: Validators): Option<Error> {
    if h.originator == "" then Some(Invalid(GroupHeaderPrefix, Originator))
    else if h.groupStatus < 0 || h.groupStatus > 4 then Some(Invalid(GroupHeaderPrefix, GroupStatus))
    else if h.asOfDate == "" then Some(Invalid(GroupHeaderPrefix, AsOfDate))
    else if !v.date(h.asOfDate) then Some(Invalid(GroupHeaderPrefix, AsOfDate))
    else if h.asOfTime != "" && !v.time(h.asOfTime) then Some(Invalid(GroupHeaderPrefix, AsOfTime))
    else if h.currencyCode != "" && !v.currencyCode(h.currencyCode) then Some(Invalid(GroupHeaderPrefix, CurrencyCode))
    else if h.asOfDateModifier < 0 || h.asOfDateModifier > 4 then Some(Invalid(GroupHeaderPrefix, AsOfDateModifier))
    else None
  }

  /**
   Validation fails exactly when a rule of the table is broken, and then it
   names the first broken rule.
   */
  lemma ValidateReportsFirstFailure(h: Header, v: Validators)
    ensures ReportsFirstFailure(Checks(h, v), GroupHeaderPrefix, Validate(h, v))
  {
    var checks := Checks(h, v);
    assert AllPass(checks) <==>
      (checks[0].passes && checks[1].passes && checks[2].passes
       && checks[3].passes && checks[4].passes && checks[5].passes);
    forall k | FirstFailing(checks, k)
      ensures Validate(h, v) == Some(Invalid(GroupHeaderPrefix, checks[k].field))
    {
      assert forall j | 0 <= j < k :: checks[j].passes;
    }
  }

  // ------------------------------------------------------------------- parse

  /** The value of one field as the parser reads it: text, or an integer. */
  datatype FieldValue = TextValue(text: string) | IntValue(number: int)

  /** Field `k` (in parse order) is read as an integer: GroupStatus and AsOfDateModifier. */
  predicate IsNumeric(k: nat) {
    k == 2 || k == 6
  }

  /** Field `k` of a header, in parse order. */
  function Get(h: Header, k: nat): (value: FieldValue)
    requires k < |FIELD_ORDER|
    ensures value.IntValue? <==> IsNumeric(k)
  {
    if k == 0 then TextValue(h.receiver)
    else if k == 1 then TextValue(h.originator)
    else if k == 2 then IntValue(h.groupStatus)
    else if k == 3 then TextValue(h.asOfDate)
    else if k == 4 then TextValue(h.asOfTime)
    else if k == 5 then TextValue(h.currencyCode)
    else IntValue(h.asOfDateModifier)
  }

  /**
   `h` with field `k` (in parse order) assigned; a value of the wrong kind
   for the field (which the parser never reads) changes nothing.
   */
  function Set(h: Header, k: nat, value: FieldValue): Header
    requires k < |FIELD_ORDER|
  {
    match value
    case TextValue(text) =>
      if k == 0 then h.(receiver := text)
      else if k == 1 then h.(originator := text)
      else if k == 3 then h.(asOfDate := text)
      else if k == 4 then h.(asOfTime := text)
      else if k == 5 then h.(currencyCode := text)
      else h
    case IntValue(number) =>
      if k == 2 then h.(groupStatus := number)
      else if k == 6 then h.(asOfDateModifier := number)
      else h
  }

  /** Assigning field `k` changes that field to the value assigned and no other field. */
  lemma GetAfterSet(h: Header, k: nat, value: FieldValue)
    requires k < |FIELD_ORDER| && (value.IntValue? <==> IsNumeric(k))
    ensures Get(Set(h, k, value), k) == value
    ensures forall i | 0 <= i < |FIELD_ORDER| && i != k :: Get(Set(h, k, value), i) == Get(h, i)
  {
  }

  /** Two headers that agree on every field are the same header. */
  lemma SameFields(a: Header, b: Header)
    requires forall i | 0 <= i < |FIELD_ORDER| :: Get(a, i) == Get(b, i)
    ensures a == b
  {
    assert Get(a, 0) == Get(b, 0) && Get(a, 1) == Get(b, 1) && Get(a, 2) == Get(b, 2);
    assert Get(a, 3) == Get(b, 3) && Get(a, 4) == Get(b, 4) && Get(a, 5) == Get(b, 5);
    assert Get(a, 6) == Get(b, 6);
  }

  /** The read of field `k` at position `at` of the line, with the reader its kind calls for. */
  function ReadAt(t: Tokenizer, line: string, at: int, k: nat): (r: FieldRead<FieldValue>)
    ensures r.value.IntValue? <==> IsNumeric(k)
  {
    if IsNumeric(k) then
      var r := t.ReadFieldAsInt(line, at);
      FieldRead(IntValue(r.value), r.size, r.ok)
    else
      var r := t.ReadField(line, at);
      FieldRead(TextValue(r.value), r.size, r.ok)
  }

  /**
   What a parse leaves behind: the header's fields, the characters consumed
   and the error. While the fields are being read, `consumed` is the cursor.
   */
  datatype Outcome = Outcome(header: Header, consumed: int, err: Option<Error>)

  /**
   One read of a parse: unless the parse has already failed, field `k` is
   read at the cursor and assigned before its failure is looked at; a
   failure stops the parse with nothing rolled back, a success moves the
   cursor past the field.
   */
  function Step(t: Tokenizer, line: string, o: Outcome, k: nat): (r: Outcome)
    requires t.Sound() && k < |FIELD_ORDER|
    ensures o.err.Some? ==> r == o
    ensures o.err.None? && r.err.Some? ==>
      r.consumed == 0 && r.err == Some(UnableToParse(GroupHeaderPrefix, FIELD_ORDER[k]))
    ensures r.err.None? ==> r.consumed >= o.consumed + 1
  {
    if o.err.Some? then o
    else
      var read := ReadAt(t, line, o.consumed, k);
      var h := Set(o.header, k, read.value);
      if !read.ok then Outcome(h, 0, Some(UnableToParse(GroupHeaderPrefix, FIELD_ORDER[k])))
      else Outcome(h, o.consumed + read.size, None)
  }

  /** The reads of the fields from `k` on, one after the other. */
  function ParseFieldsFrom(t: Tokenizer, line: string, o: Outcome, k: nat): (r: Outcome)
    requires t.Sound() && k <= |FIELD_ORDER|
    ensures o.err.Some? ==> r == o
    ensures o.err.None? && r.err.Some? ==> r.consumed == 0 && r.err.value.UnableToParse?
    ensures r.err.None? ==> r.consumed >= o.consumed + |FIELD_ORDER| - k
    // `line` in the measure keeps the verifier from unfolding the reads of a literal `k` all at once.
    decreases |FIELD_ORDER| - k, line
  {
    if k == |FIELD_ORDER| then o else ParseFieldsFrom(t, line, Step(t, line, o, k), k + 1)
  }

  /** The seven reads of a parse, in the order the parser makes them. */
  function ParseFields(t: Tokenizer, line: string, o: Outcome): (r: Outcome)
    requires t.Sound()
  {
    var o1 := Step(t, line, o, 0);
    var o2 := Step(t, line, o1, 1);
    var o3 := Step(t, line, o2, 2);
    var o4 := Step(t, line, o3, 3);
    var o5 := Step(t, line, o4, 4);
    var o6 := Step(t, line, o5, 5);
    Step(t, line, o6, 6)
  }

  /** The reads written out one after the other are the reads of every field in turn. */
  lemma ParseFieldsInTurn(t: Tokenizer, line: string, o: Outcome)
    requires t.Sound()
    ensures ParseFields(t, line, o) == ParseFieldsFrom(t, line, o, 0)
  {
    var o1 := Step(t, line, o, 0);
    assert ParseFieldsFrom(t, line, o, 0) == ParseFieldsFrom(t, line, o1, 1);
    var o2 := Step(t, line, o1, 1);
    assert ParseFieldsFrom(t, line, o1, 1) == ParseFieldsFrom(t, line, o2, 2);
    var o3 := Step(t, line, o2, 2);
    assert ParseFieldsFrom(t, line, o2, 2) == ParseFieldsFrom(t, line, o3, 3);
    var o4 := Step(t, line, o3, 3);
    assert ParseFieldsFrom(t, line, o3, 3) == ParseFieldsFrom(t, line, o4, 4);
    var o5 := Step(t, line, o4, 4);
    assert ParseFieldsFrom(t, line, o4, 4) == ParseFieldsFrom(t, line, o5, 5);
    var o6 := Step(t, line, o5, 5);
    assert ParseFieldsFrom(t, line, o5, 5) == ParseFieldsFrom(t, line, o6, 6);
    var o7 := Step(t, line, o6, 6);
    assert ParseFieldsFrom(t, line, o6, 6) == ParseFieldsFrom(t, line, o7, 7) == o7;
  }

  /**
   The effect of parsing `data` into a header whose fields were `h`: the
   record must be at least three characters long and start with the group
   header code; then the seven fields are read after the code and its comma,
   and the header they make up is validated.
   */
  function Parsed(t: Tokenizer, v: Validators, data: string, h: Header): (o: Outcome)
    requires t.Sound()
    ensures o.err.Some? ==> o.consumed == 0
    ensures o.err.None? ==> Validate(o.header, v).None? && o.consumed >= 3 + |FIELD_ORDER|
    ensures t.GetSize(data) < 3 || data[..2] != GROUP_HEADER_CODE ==> o.header == h && o.err.Some?
    ensures t.GetSize(data) < 3 ==> o == Outcome(h, 0, Some(UnableToParse(GroupHeaderPrefix, WholeRecord)))
    ensures t.GetSize(data) >= 3 && data[..2] != GROUP_HEADER_CODE ==>
      o == Outcome(h, 0, Some(UnableToParse(FileHeaderPrefix, RecordCode)))
  {
    var length := t.GetSize(data);
    if length < 3 then Outcome(h, 0, Some(UnableToParse(GroupHeaderPrefix, WholeRecord)))
    else if data[..2] != GROUP_HEADER_CODE then Outcome(h, 0, Some(UnableToParse(FileHeaderPrefix, RecordCode)))
    else
      var o := ParseFieldsFrom(t, data[..length], Outcome(h, 3, None), 0);
      if o.err.Some? then o
      else match Validate(o.header, v)
        case Some(e) => Outcome(o.header, 0, Some(e))
        case None => o
  }

  /** What the reads of a parse produce: the values read, the characters consumed and the error. */
  datatype Reading = Reading(values: seq<FieldValue>, consumed: int, err: Option<Error>)

  /** The values, starting with the one for field `k`, are of the kinds their fields call for. */
  predicate Kinds(values: seq<FieldValue>, k: nat) {
    forall j | 0 <= j < |values| :: values[j].IntValue? <==> IsNumeric(k + j)
  }

  /**
   The reads of the fields from `k` on, from position `at` of the line, on
   their own: the value of every read up to and including the first that
   fails. A failure names the field whose read failed.
   */
  function ReadFields(t: Tokenizer, line: string, at: int, k: nat): (rd: Reading)
    requires t.Sound() && k <= |FIELD_ORDER|
    ensures k + |rd.values| <= |FIELD_ORDER|
    ensures rd.err.None? ==> k + |rd.values| == |FIELD_ORDER|
    ensures rd.err.Some? ==>
      && |rd.values| >= 1 && rd.consumed == 0
      && rd.err == Some(UnableToParse(GroupHeaderPrefix, FIELD_ORDER[k + |rd.values| - 1]))
    // As for `ParseFieldsFrom`, `line` in the measure is there for the verifier.
    decreases |FIELD_ORDER| - k, line
  {
    if k == |FIELD_ORDER| then Reading([], at, None)
    else
      var r := ReadAt(t, line, at, k);
      if !r.ok then Reading([r.value], 0, Some(UnableToParse(GroupHeaderPrefix, FIELD_ORDER[k])))
      else
        var rest := ReadFields(t, line, at + r.size, k + 1);
        Reading([r.value] + rest.values, rest.consumed, rest.err)
  }

  /** Every value read is of the kind its field calls for. */
  lemma {:induction false} ReadFieldsKinds(t: Tokenizer, line: string, at: int, k: nat)
    requires t.Sound() && k <= |FIELD_ORDER|
    ensures Kinds(ReadFields(t, line, at, k).values, k)
    decreases |FIELD_ORDER| - k, line
  {
    if k < |FIELD_ORDER| {
      var r := ReadAt(t, line, at, k);
      if r.ok {
        ReadFieldsKinds(t, line, at + r.size, k + 1);
        ReadFieldsStep(t, line, at, k);
        var rest := ReadFields(t, line, at + r.size, k + 1).values;
        var values := [r.value] + rest;
        assert ReadFields(t, line, at, k).values == values;
        forall j | 0 <= j < |values| ensures values[j].IntValue? <==> IsNumeric(k + j) {
          if j > 0 {
            assert values[j] == rest[j - 1];
          }
        }
      }
    }
  }

  /** A successful read of field `k` puts its value in front of the values read after it. */
  lemma ReadFieldsStep(t: Tokenizer, line: string, at: int, k: nat)
    requires t.Sound() && k < |FIELD_ORDER| && ReadAt(t, line, at, k).ok
    ensures var r := ReadAt(t, line, at, k);
      var rest := ReadFields(t, line, at + r.size, k + 1);
      ReadFields(t, line, at, k) == Reading([r.value] + rest.values, rest.consumed, rest.err)
  {
  }

  /** `h` with the values assigned, in order, to the fields from `k` on. */
  function Assign(h: Header, k: nat, values: seq<FieldValue>): Header
    requires k + |values| <= |FIELD_ORDER|
    decreases |values|
  {
    if values == [] then h else Assign(Set(h, k, values[0]), k + 1, values[1..])
  }

  /** The values assigned from `k` on replace those fields and leave the others as they were. */
  lemma {:induction false} GetAssign(h: Header, k: nat, values: seq<FieldValue>, i: nat)
    requires k + |values| <= |FIELD_ORDER| && Kinds(values, k) && i < |FIELD_ORDER|
    ensures Get(Assign(h, k, values), i) == if k <= i < k + |values| then values[i - k] else Get(h, i)
    decreases |values|
  {
    if values != [] {
      GetAfterSet(h, k, values[0]);
      GetAssign(Set(h, k, values[0]), k + 1, values[1..], i);
    }
  }

  /**
   Reading the fields into a header is the same as making the reads on their
   own and then assigning the values read, in order, to the header.
   */
  lemma {:induction false} ParseFieldsAssigns(t: Tokenizer, line: string, h: Header, at: int, k: nat)
    requires t.Sound() && k <= |FIELD_ORDER|
    ensures var rd := ReadFields(t, line, at, k);
      ParseFieldsFrom(t, line, Outcome(h, at, None), k) == Outcome(Assign(h, k, rd.values), rd.consumed, rd.err)
    decreases |FIELD_ORDER| - k, line
  {
    if k < |FIELD_ORDER| {
      var r := ReadAt(t, line, at, k);
      if r.ok {
        ParseFieldsAssigns(t, line, Set(h, k, r.value), at + r.size, k + 1);
        var rest := ReadFields(t, line, at + r.size, k + 1);
        assert ([r.value] + rest.values)[1..] == rest.values;
      } else {
        assert [r.value][1..] == [];
      }
    }
  }

  /** The values a parse of `data` reads, whatever the header held: none when the record is rejected at once. */
  function FieldsRead(t: Tokenizer, data: string): (values: seq<FieldValue>)
    requires t.Sound()
    ensures |values| <= |FIELD_ORDER|
  {
    var length := t.GetSize(data);
    if length < 3 || data[..2] != GROUP_HEADER_CODE then []
    else ReadFields(t, data[..length], 3, 0).values
  }

  /** Assigning a value to every field leaves nothing of the header assigned to. */
  lemma AssignAll(h: Header, other: Header, values: seq<FieldValue>)
    requires |values| == |FIELD_ORDER| && Kinds(values, 0)
    ensures Assign(h, 0, values) == Assign(other, 0, values)
  {
    forall i | 0 <= i < |FIELD_ORDER|
      ensures Get(Assign(h, 0, values), i) == Get(Assign(other, 0, values), i)
    {
      GetAssign(h, 0, values, i);
      GetAssign(other, 0, values, i);
    }
    SameFields(Assign(h, 0, values), Assign(other, 0, values));
  }

  /**
   The header a parse leaves is the old one with the values it read assigned
   in order; the count and the error are those of the reads, unless the
   header they make up fails validation.
   */
  lemma ParsedAssigns(t: Tokenizer, v: Validators, data: string, h: Header)
    requires t.Sound()
    ensures var o, values := Parsed(t, v, data, h), FieldsRead(t, data);
      && o.header == Assign(h, 0, values)
      && Kinds(values, 0)
      && (o.err.None? ==> |values| == |FIELD_ORDER|)
  {
    var length := t.GetSize(data);
    if length >= 3 && data[..2] == GROUP_HEADER_CODE {
      ParseFieldsAssigns(t, data[..length], h, 3, 0);
      ReadFieldsKinds(t, data[..length], 3, 0);
    }
  }

  /** The count and the error of a parse do not depend on what the header held. */
  lemma ParsedIgnoresHeader(t: Tokenizer, v: Validators, data: string, h: Header, other: Header)
    requires t.Sound()
    ensures Parsed(t, v, data, h).consumed == Parsed(t, v, data, other).consumed
    ensures Parsed(t, v, data, h).err == Parsed(t, v, data, other).err
  {
    var length := t.GetSize(data);
    if length >= 3 && data[..2] == GROUP_HEADER_CODE {
      var line := data[..length];
      ParseFieldsAssigns(t, line, h, 3, 0);
      ParseFieldsAssigns(t, line, other, 3, 0);
      var rd := ReadFields(t, line, 3, 0);
      if rd.err.None? {
        ReadFieldsKinds(t, line, 3, 0);
        AssignAll(h, other, rd.values);
      }
    }
  }

  /**
   A parse assigns the fields in order, each before its read is checked,
   and stops at the first read that fails, with nothing rolled back: the
   fields up to and including that one hold what was read from the data,
   the fields after it keep their old values. Only when every read succeeds
   (which a successful parse needs) is the old header wholly replaced; the
   count and the error depend on the data alone.
   */
  lemma ParseOverwritesInOrder(t: Tokenizer, v: Validators, data: string, h: Header, other: Header)
    requires t.Sound()
    ensures var o, values := Parsed(t, v, data, h), FieldsRead(t, data);
      && (forall i | 0 <= i < |FIELD_ORDER| ::
            Get(o.header, i) == if i < |values| then values[i] else Get(h, i))
      && (o.err.None? ==> |values| == |FIELD_ORDER|)
      && o.consumed == Parsed(t, v, data, other).consumed
      && o.err == Parsed(t, v, data, other).err
  {
    var values := FieldsRead(t, data);
    ParsedAssigns(t, v, data, h);
    ParsedIgnoresHeader(t, v, data, h, other);
    forall i | 0 <= i < |FIELD_ORDER|
      ensures Get(Assign(h, 0, values), i) == if i < |values| then values[i] else Get(h, i)
    {
      GetAssign(h, 0, values, i);
    }
  }

  // ------------------------------------------------------------------ string

  /** The texts of the seven fields as they are written; a modifier that is not positive is left empty. */
  function Texts(h: Header): seq<string> {
    [ h.receiver, h.originator, IntToDecimal(h.groupStatus), h.asOfDate, h.asOfTime, h.currencyCode,
      if h.asOfDateModifier > 0 then IntToDecimal(h.asOfDateModifier) else "" ]
  }

  /** The text of a header: its code and its fields separated by commas, closed by '/'. */
  function Rendered(h: Header): string {
    GROUP_HEADER_CODE + "," + Join(Texts(h)) + "/"
  }

  /** The string fields of `h` can be written as fields. */
  ghost predicate PlainFields(h: Header) {
    && Plain(h.receiver) && Plain(h.originator) && Plain(h.asOfDate)
    && Plain(h.asOfTime) && Plain(h.currencyCode)
  }

  /** The texts of a header with plain string fields can all be written as fields. */
  lemma TextsArePlain(h: Header)
    requires PlainFields(h)
    ensures AllPlain(Texts(h))
  {
    var texts := Texts(h);
    assert Plain(texts[2]) && Plain(texts[6]);
  }

  /**
   A header whose string fields hold no delimiter is written as one line:
   it starts with the group header code and a comma, ends with its only '/',
   and holds no line break.
   */
  lemma RenderedShape(h: Header)
    requires PlainFields(h)
    ensures var s := Rendered(h);
      && s[..3] == GROUP_HEADER_CODE + ","
      && s[|s| - 1] == '/'
      && Unterminated(s[..|s| - 1])
  {
    var s := Rendered(h);
    var body := GROUP_HEADER_CODE + "," + Join(Texts(h));
    TextsArePlain(h);
    JoinUnterminated(Texts(h));
    assert s[..|s| - 1] == body;
    assert forall i | 3 <= i < |body| :: body[i] == Join(Texts(h))[i - 3];
  }

  /**
   A modifier of zero and a negative modifier are written alike: as an
   empty field.
   */
  lemma ModifierNotPositiveIsEmpty(h: Header, modifier: int)
    requires h.asOfDateModifier <= 0 && modifier <= 0
    ensures Rendered(h.(asOfDateModifier := modifier)) == Rendered(h)
    ensures Texts(h)[6] == ""
  {
  }

  /** The fields of a header as values, in parse order. */
  function Values(h: Header): (values: seq<FieldValue>)
    ensures |values| == |FIELD_ORDER| && Kinds(values, 0)
    ensures forall i | 0 <= i < |FIELD_ORDER| :: values[i] == Get(h, i)
  {
    [Get(h, 0), Get(h, 1), Get(h, 2), Get(h, 3), Get(h, 4), Get(h, 5), Get(h, 6)]
  }

  /** Assigning every field of a header, from any header, gives that header. */
  lemma AssignValues(h: Header, before: Header)
    ensures Assign(before, 0, Values(h)) == h
  {
    var values := Values(h);
    forall i | 0 <= i < |FIELD_ORDER| ensures Get(Assign(before, 0, values), i) == Get(h, i) {
      GetAssign(before, 0, values, i);
    }
    SameFields(Assign(before, 0, values), h);
  }

  /** Field `k` is read from its offset in `texts` as `values[k]`, with its delimiter. */
  predicate ReadsAs(t: Tokenizer, line: string, texts: seq<string>, values: seq<FieldValue>, k: nat)
    requires k < |texts| && k < |values|
  {
    ReadAt(t, line, 3 + StandardTokenizer.Offset(texts, k), k) == FieldRead(values[k], |texts[k]| + 1, true)
  }

  /**
   Reading the fields from `k` on out of a line in which every field `i` is
   read, from its offset in `texts`, as `values[i]`, gives the values from
   `k` on and consumes the line through the last field.
   */
  lemma {:induction false} ReadsBack(
    t: Tokenizer, line: string, texts: seq<string>, values: seq<FieldValue>, k: nat)
    requires t.Sound() && |texts| == |FIELD_ORDER| && |values| == |FIELD_ORDER| && k <= |FIELD_ORDER|
    requires forall i | 0 <= i < |FIELD_ORDER| :: ReadsAs(t, line, texts, values, i)
    ensures ReadFields(t, line, 3 + StandardTokenizer.Offset(texts, k), k)
         == Reading(values[k..], 3 + StandardTokenizer.Offset(texts, |FIELD_ORDER|), None)
    decreases |FIELD_ORDER| - k, line
  {
    if k < |FIELD_ORDER| {
      var at := 3 + StandardTokenizer.Offset(texts, k);
      var end := 3 + StandardTokenizer.Offset(texts, |FIELD_ORDER|);
      var r := ReadAt(t, line, at, k);
      assert ReadsAs(t, line, texts, values, k);
      assert r.ok && r.value == values[k];
      assert at + r.size == 3 + StandardTokenizer.Offset(texts, k + 1);
      ReadsBack(t, line, texts, values, k + 1);
      var rest := ReadFields(t, line, at + r.size, k + 1);
      assert rest == Reading(values[k + 1..], end, None);
      ReadFieldsStep(t, line, at, k);
      assert values[k..] == [values[k]] + values[k + 1..];
    } else {
      assert values[k..] == [];
    }
  }

  /**
   Parsing the fields of such a line into any header assigns it the values
   and consumes the line through the last field.
   */
  lemma ParsesBack(
    t: Tokenizer, line: string, texts: seq<string>, values: seq<FieldValue>, before: Header)
    requires t.Sound() && |texts| == |FIELD_ORDER| && |values| == |FIELD_ORDER|
    requires forall i | 0 <= i < |FIELD_ORDER| :: ReadsAs(t, line, texts, values, i)
    ensures ParseFieldsFrom(t, line, Outcome(before, 3, None), 0)
         == Outcome(Assign(before, 0, values), 3 + StandardTokenizer.Offset(texts, |FIELD_ORDER|), None)
  {
    assert StandardTokenizer.Offset(texts, 0) == 0;
    ReadsBack(t, line, texts, values, 0);
    assert values[0..] == values;
    ParseFieldsAssigns(t, line, before, 3, 0);
  }

  /**
   With the concrete tokenizer, field `k` of the text of a header is read
   back as the value it was written from, with its delimiter.
   */
  // Not a proof by induction: the attribute keeps the verifier from trying one, which runs out of resource here.
  lemma {:induction false} ReadsField(target: Header, k: nat)
    requires PlainFields(target) && 0 <= target.asOfDateModifier && k < |FIELD_ORDER|
    ensures var texts := Texts(target);
      ReadAt(StandardTokenizer.STANDARD, Rendered(target), 3 + StandardTokenizer.Offset(texts, k), k)
      == FieldRead(Get(target, k), |texts[k]| + 1, true)
  {
    var texts := Texts(target);
    var head := GROUP_HEADER_CODE + ",";
    var line := Rendered(target);
    var at := 3 + StandardTokenizer.Offset(texts, k);
    assert line == head + Join(texts) + "/";
    TextsArePlain(target);
    StandardTokenizer.StandardReads(line, at);
    if IsNumeric(k) {
      var n := if k == 2 then target.groupStatus else target.asOfDateModifier;
      assert Get(target, k) == IntValue(n);
      if n > 0 || k == 2 {
        assert texts[k] == IntToDecimal(n);
        StandardTokenizer.ParseIntRoundTrip(n);
      } else {
        assert texts[k] == "";
      }
      StandardTokenizer.ReadJoinedAsInt(head, texts, k, n);
    } else {
      assert Get(target, k) == TextValue(texts[k]);
      StandardTokenizer.ReadJoined(head, texts, k);
    }
  }

  /**
   With the concrete tokenizer, the seven reads from the text of a header
   whose string fields hold no delimiter and whose modifier is not negative
   give back its fields and consume the whole text, whatever the header held
   before.
   */
  lemma FieldsRoundTrip(h: Header, before: Header)
    requires PlainFields(h) && 0 <= h.asOfDateModifier
    ensures StandardTokenizer.STANDARD.Sound()
    ensures ParseFieldsFrom(StandardTokenizer.STANDARD, Rendered(h), Outcome(before, 3, None), 0)
         == Outcome(h, |Rendered(h)|, None)
  {
    StandardTokenizer.StandardIsSound();
    var texts := Texts(h);
    var head := GROUP_HEADER_CODE + ",";
    var s := Rendered(h);
    assert s == head + Join(texts) + "/";
    TextsArePlain(h);
    forall i | 0 <= i < |FIELD_ORDER| ensures ReadsAs(StandardTokenizer.STANDARD, s, texts, Values(h), i) {
      ReadsField(h, i);
    }
    StandardTokenizer.ReadJoined(head, texts, 6);
    assert 3 + StandardTokenizer.Offset(texts, |FIELD_ORDER|) == |s|;
    ParsesBack(StandardTokenizer.STANDARD, s, texts, Values(h), before);
    AssignValues(h, before);
  }

  /**
   With the concrete tokenizer, a valid header whose string fields hold no
   delimiter reads back from its own text: same fields, no error, the whole
   text consumed, whatever the header held before.
   */
  lemma RoundTrip(v: Validators, h: Header, before: Header)
    requires PlainFields(h) && Validate(h, v).None?
    ensures StandardTokenizer.STANDARD.Sound()
    ensures Parsed(StandardTokenizer.STANDARD, v, Rendered(h), before) == Outcome(h, |Rendered(h)|, None)
  {
    var s := Rendered(h);
    var body := GROUP_HEADER_CODE + "," + Join(Texts(h));
    assert s == body + "/";
    RenderedShape(h);
    assert s[..|s| - 1] == body;
    StandardTokenizer.GetSizeOfRecord(body);
    assert s[..|s|] == s;
    assert s[..2] == GROUP_HEADER_CODE;
    FieldsRoundTrip(h, before);
  }

  // ------------------------------------------------------------------- class

  /** A group header whose fields the parser assigns in place. */
  class GroupHeader {
    var receiver: string
    var originator: string
    var groupStatus: int
    var asOfDate: string
    var asOfTime: string
    var currencyCode: string
    var asOfDateModifier: int

    /** The current field values. */
    function Value(): Header
      reads this
    {
      Header(receiver, originator, groupStatus, asOfDate, asOfTime, currencyCode, asOfDateModifier)
    }

    /** A header with every field at its zero value. */
    constructor ()
      ensures Value() == EMPTY
    {
      receiver, originator, groupStatus := "", "", 0;
      asOfDate, asOfTime, currencyCode, asOfDateModifier := "", "", "", 0;
    }

    /**
     Parses a group header line into this header and returns the number of
     characters consumed, or zero and the error.
     */
    method Parse(t: Tokenizer, v: Validators, data: string) returns (read: int, err: Option<Error>)
      requires t.Sound()
      modifies this
      ensures Outcome(Value(), read, err) == Parsed(t, v, data, old(Value()))
    {
      var length := t.GetSize(data);
      if length < 3 {
        return 0, Some(UnableToParse(GroupHeaderPrefix, WholeRecord));
      }
      var line := data[..length];

      if GROUP_HEADER_CODE != data[..2] {
        return 0, Some(UnableToParse(FileHeaderPrefix, RecordCode));
      }
      ParseFieldsInTurn(t, line, Outcome(Value(), 3, None));
      read, err := ReadRecordFields(t, line);
      if err.Some? {
        return 0, err;
      }
      err := Validate(Value(), v);
      if err.Some? {
        return 0, err;
      }
      return read, None;
    }

    /**
     The seven reads of `Parse`, after the record code and its comma: each
     field is stored as it is read, and the first failed read stops the
     parse. Returns the characters consumed, or the error.
     */
    method ReadRecordFields(t: Tokenizer, line: string) returns (read: int, err: Option<Error>)
      requires t.Sound()
      modifies this
      ensures Outcome(Value(), read, err) == ParseFields(t, line, Outcome(old(Value()), 3, None))
    {
      read := 3;
      // `o` follows the reads of the specification, one field at a time.
      ghost var o := Outcome(Value(), read, None);
      var field := t.ReadField(line, read);
      receiver := field.value;
      o := Step(t, line, o, 0);
      if !field.ok {
        return 0, Some(UnableToParse(GroupHeaderPrefix, Receiver));
      }
      read := read + field.size;
      assert o == Outcome(Value(), read, None);

      field := t.ReadField(line, read);
      originator := field.value;
      o := Step(t, line, o, 1);
      if !field.ok {
        return 0, Some(UnableToParse(GroupHeaderPrefix, Originator));
      }
      read := read + field.size;
      assert o == Outcome(Value(), read, None);

      var number := t.ReadFieldAsInt(line, read);
      groupStatus := number.value;
      o := Step(t, line, o, 2);
      if !number.ok {
        return 0, Some(UnableToParse(GroupHeaderPrefix, GroupStatus));
      }
      read := read + number.size;
      assert o == Outcome(Value(), read, None);

      field := t.ReadField(line, read);
      asOfDate := field.value;
      o := Step(t, line, o, 3);
      if !field.ok {
        return 0, Some(UnableToParse(GroupHeaderPrefix, AsOfDate));
      }
      read := read + field.size;
      assert o == Outcome(Value(), read, None);

      field := t.ReadField(line, read);
      asOfTime := field.value;
      o := Step(t, line, o, 4);
      if !field.ok {
        return 0, Some(UnableToParse(GroupHeaderPrefix, AsOfTime));
      }
      read := read + field.size;
      assert o == Outcome(Value(), read, None);

      field := t.ReadField(line, read);
      currencyCode := field.value;
      o := Step(t, line, o, 5);
      if !field.ok {
        return 0, Some(UnableToParse(GroupHeaderPrefix, CurrencyCode));
      }
      read := read + field.size;
      assert o == Outcome(Value(), read, None);

      number := t.ReadFieldAsInt(line, read);
      asOfDateModifier := number.value;
      o := Step(t, line, o, 6);
      if !number.ok {
        return 0, Some(UnableToParse(GroupHeaderPrefix, AsOfDateModifier));
      }
      read := read + number.size;
      assert o == Outcome(Value(), read, None);

      return read, None;
    }

    /** Writes this header as a line of text. */
    method String() returns (s: string)
      ensures s == Rendered(Value())
    {
      ghost var texts := Texts(Value());
      var buf := GROUP_HEADER_CODE + ",";
      assert Rendered(Value()) == buf + Join(texts[0..]) + "/";
      JoinFirst(buf, texts[0..]);
      buf := buf + receiver + ",";
      assert texts[0..][1..] == texts[1..];
      JoinFirst(buf, texts[1..]);
      buf := buf + originator + ",";
      assert texts[1..][1..] == texts[2..];
      JoinFirst(buf, texts[2..]);
      buf := buf + IntToDecimal(groupStatus) + ",";
      assert texts[2..][1..] == texts[3..];
      JoinFirst(buf, texts[3..]);
      buf := buf + asOfDate + ",";
      assert texts[3..][1..] == texts[4..];
      JoinFirst(buf, texts[4..]);
      buf := buf + asOfTime + ",";
      assert texts[4..][1..] == texts[5..];
      JoinFirst(buf, texts[5..]);
      buf := buf + currencyCode + ",";
      assert texts[5..][1..] == texts[6..];
      assert Rendered(Value()) == buf + texts[6] + "/";
      if asOfDateModifier > 0 {
        buf := buf + IntToDecimal(asOfDateModifier) + "/";
      } else {
        buf := buf + "/";
      }
      s := buf;
    }
  }
}
