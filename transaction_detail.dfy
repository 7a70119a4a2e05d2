/**
 The transaction detail record (BAI2 record type 16): three fixed fields and
 any number of trailing composite fields, the validation rules, the parser
 that fills a detail from a line of text, and the writer that renders it back,
 wrapping the composites onto continuation lines (record type 88) when a
 maximum line length is given.
 */
module TransactionDetails {
  import opened Util
  import opened Text
  import StandardTokenizer

  /** The field values of a transaction detail. */
  datatype Detail = Detail(typeCode: string, amount: string, fundsType: string, composite: seq<string>)

  /** The detail every field of which holds its zero value. */
  const EMPTY: Detail := Detail("", "", "", [])

  /** The fixed fields in the order the parser reads them. */
  const FIXED_FIELDS: seq<Field> := [TypeCode, Amount, FundsType]

  // ---------------------------------------------------------------- validate

  /** The validation rules of a transaction detail, in the order they are checked; composites have none. */
  function Checks(d: Detail, v: Validators): seq<Check> {
    [ Check(TypeCode, d.typeCode == "" || v.typeCode(d.typeCode)),
      Check(Amount, d.amount == "" || v.amount(d.amount)),
      Check(FundsType, d.fundsType == "" || v.fundsType(d.fundsType)) ]
  }

  /** Validation of a detail: the first rule it breaks, or nothing. */
  function Validate(d: Detail, v: Validators): Option<Error> {
    if d.typeCode != "" && !v.typeCode(d.typeCode) then Some(Invalid(AccountTransactionPrefix, TypeCode))
    else if d.amount != "" && !v.amount(d.amount) then Some(Invalid(AccountTransactionPrefix, Amount))
    else if d.fundsType != "" && !v.fundsType(d.fundsType) then Some(Invalid(AccountTransactionPrefix, FundsType))
    else None
  }

  /**
   Validation fails exactly when a rule of the table is broken, and then it
   names the first broken rule.
   */
  lemma ValidateReportsFirstFailure(d: Detail, v: Validators)
    ensures ReportsFirstFailure(Checks(d, v), AccountTransactionPrefix, Validate(d, v))
  {
    var checks := Checks(d, v);
    assert AllPass(checks) <==> (checks[0].passes && checks[1].passes && checks[2].passes);
    forall k | FirstFailing(checks, k)
      ensures Validate(d, v) == Some(Invalid(AccountTransactionPrefix, checks[k].field))
    {
      assert forall j | 0 <= j < k :: checks[j].passes;
    }
  }

  // ------------------------------------------------------------------- parse

  /**
   What a parse leaves behind: the detail's fields, the characters consumed
   and the error. While the fields are being read, `consumed` is the cursor.
   */
  datatype Outcome = Outcome(detail: Detail, consumed: int, err: Option<Error>)

  /** `d` with fixed field `k` (in parse order) assigned. */
  function Set(d: Detail, k: nat, text: string): Detail
    requires k < |FIXED_FIELDS|
  {
    if k == 0 then d.(typeCode := text) else if k == 1 then d.(amount := text) else d.(fundsType := text)
  }

  /**
   One read of a fixed field: unless the parse has already failed, field `k`
   is read at the cursor and assigned before its failure is looked at; a
   failure stops the parse with nothing rolled back, a success moves the
   cursor past the field. The composites are not touched.
   */
  function Step(t: Tokenizer, line: string, o: Outcome, k: nat): (r: Outcome)
    requires t.Sound() && k < |FIXED_FIELDS|
    ensures o.err.Some? ==> r == o
    ensures o.err.None? && r.err.Some? ==>
      r.consumed == 0 && r.err == Some(UnableToParse(AccountTransactionPrefix, FIXED_FIELDS[k]))
    ensures r.err.None? ==> r.consumed >= o.consumed + 1
    ensures r.detail.composite == o.detail.composite
  {
    if o.err.Some? then o
    else
      var read := t.ReadField(line, o.consumed);
      var d := Set(o.detail, k, read.value);
      if !read.ok then Outcome(d, 0, Some(UnableToParse(AccountTransactionPrefix, FIXED_FIELDS[k])))
      else Outcome(d, o.consumed + read.size, None)
  }

  /** The three reads of the fixed fields, in the order the parser makes them. */
  function ParseFixed(t: Tokenizer, line: string, o: Outcome): (r: Outcome)
    requires t.Sound()
  {
    Step(t, line, Step(t, line, Step(t, line, o, 0), 1), 2)
  }

  /**
   What the composite loop reads from position `at`: the fields read, in
   order, the cursor where it stops and whether every read succeeded.
   */
  datatype Composites = Composites(values: seq<string>, end: int, ok: bool)

  /**
   The composite loop, from position `at` of a record `length` characters
   long: while the cursor is short of the length, one more field is read.
   The loop stops at or past the length; a failed read stops it at once,
   after the fields read before it.
   */
  function ReadComposites(t: Tokenizer, line: string, at: int, length: int): (r: Composites)
    requires t.Sound()
    ensures r.ok ==> r.end >= length && r.end >= at
    ensures !r.ok ==> r.end == 0
    decreases length - at
  {
    if at >= length then Composites([], at, true)
    else
      var read := t.ReadField(line, at);
      if !read.ok then Composites([], 0, false)
      else
        var rest := ReadComposites(t, line, at + read.size, length);
        Composites([read.value] + rest.values, rest.end, rest.ok)
  }

  /**
   One turn of the composite loop: short of the length, a successful read
   puts its field in front of those the loop reads after it; a failed read
   ends the loop with nothing more read.
   */
  lemma ReadCompositesStep(t: Tokenizer, line: string, at: int, next: int, length: int)
    requires t.Sound() && at < length && next == at + t.ReadField(line, at).size
    ensures var read := t.ReadField(line, at);
      var rest := ReadComposites(t, line, next, length);
      ReadComposites(t, line, at, length)
      == if read.ok then Composites([read.value] + rest.values, rest.end, rest.ok) else Composites([], 0, false)
  {
  }

  /**
   The effect of parsing `data` into a detail whose fields were `d`: the
   record must be at least three characters long and start with the
   transaction detail code; then the fixed fields are read after the code
   and its comma, the composites read are appended to those already held,
   and the detail they make up is validated.
   */
  function Parsed(t: Tokenizer, v: Validators, data: string, d: Detail): (o: Outcome)
    requires t.Sound()
    ensures o.err.Some? ==> o.consumed == 0
    ensures o.err.None? ==> Validate(o.detail, v).None? && o.consumed >= t.GetSize(data) && o.consumed >= 3
    ensures t.GetSize(data) < 3 || data[..2] != TRANSACTION_DETAIL_CODE ==> o.detail == d && o.err.Some?
    ensures t.GetSize(data) < 3 ==> o == Outcome(d, 0, Some(UnableToParse(AccountTransactionPrefix, WholeRecord)))
    ensures t.GetSize(data) >= 3 && data[..2] != TRANSACTION_DETAIL_CODE ==>
      o == Outcome(d, 0, Some(UnableToParse(FileHeaderPrefix, RecordCode)))
    ensures d.composite <= o.detail.composite
  {
    var length := t.GetSize(data);
    if length < 3 then Outcome(d, 0, Some(UnableToParse(AccountTransactionPrefix, WholeRecord)))
    else if data[..2] != TRANSACTION_DETAIL_CODE then Outcome(d, 0, Some(UnableToParse(FileHeaderPrefix, RecordCode)))
    else
      var line := data[..length];
      var o := ParseFixed(t, line, Outcome(d, 3, None));
      if o.err.Some? then o
      else
        var c := ReadComposites(t, line, o.consumed, length);
        var read := o.detail.(composite := o.detail.composite + c.values);
        if !c.ok then Outcome(read, 0, Some(UnableToParse(AccountTransactionPrefix, Composite)))
        else match Validate(read, v)
          case Some(e) => Outcome(read, 0, Some(e))
          case None => Outcome(read, c.end, None)
  }

  /**
   The count, the error and the composites a parse appends depend on the
   data alone, not on what the detail held before.
   */
  lemma ParsedIgnoresDetail(t: Tokenizer, v: Validators, data: string, d: Detail, other: Detail)
    requires t.Sound()
    ensures var o, p := Parsed(t, v, data, d), Parsed(t, v, data, other);
      && o.consumed == p.consumed && o.err == p.err
      && o.detail.composite[|d.composite|..] == p.detail.composite[|other.composite|..]
  {
    var length := t.GetSize(data);
    if length >= 3 && data[..2] == TRANSACTION_DETAIL_CODE {
      var line := data[..length];
      var o, p := ParseFixed(t, line, Outcome(d, 3, None)), ParseFixed(t, line, Outcome(other, 3, None));
      assert o.consumed == p.consumed && o.err == p.err;
      if o.err.None? {
        assert o.detail.(composite := []) == p.detail.(composite := []);
        var c := ReadComposites(t, line, o.consumed, length);
        assert (o.detail.composite + c.values)[|d.composite|..] == c.values;
        assert (p.detail.composite + c.values)[|other.composite|..] == c.values;
      }
    }
  }

  // ------------------------------------------------------------------ string

  /** A physical line of the written record: the code it starts with and the composites written on it. */
  datatype Line = Line(start: string, composites: seq<string>)

  /** The text of a line, without its closing '/': the start, then a comma and each composite. */
  function LineText(l: Line): string {
    l.start + Segment(l.composites)
  }

  /** The line with its closing '/' is no longer than `maxLen`. */
  predicate Fits(l: Line, maxLen: int) {
    |LineText(l)| + 1 <= maxLen
  }

  /** The composites of the lines, one line after the other. */
  function Flatten(lines: seq<Line>): seq<string> {
    if lines == [] then [] else lines[0].composites + Flatten(lines[1..])
  }

  /** The composites of a single line are its own. */
  lemma FlattenSingle(lines: seq<Line>)
    ensures |lines| == 1 ==> Flatten(lines) == lines[0].composites
  {
    if |lines| == 1 {
      assert lines[1..] == [];
      assert lines[0].composites + [] == lines[0].composites;
    }
  }

  /**
   The physical lines the writer produces from the line `cur` it is filling
   and the composites still to write. Each composite goes on the current
   line unless a positive `maxLen` is given and the line, with the comma,
   the composite and a closing '/', would be longer than `maxLen`: then the
   line is closed and a continuation line holding that composite is started.
   Every composite is written once, in order, and each continuation line
   holds at least one.
   */
  function Wrap(cur: Line, composites: seq<string>, maxLen: int): (lines: seq<Line>)
    ensures |lines| >= 1 && lines[0].start == cur.start && cur.composites <= lines[0].composites
    ensures Flatten(lines) == cur.composites + composites
    ensures forall i | 1 <= i < |lines| :: lines[i].start == CONTINUATION_CODE && lines[i].composites != []
    ensures maxLen <= 0 ==> lines == [Line(cur.start, cur.composites + composites)]
    decreases |composites|
  {
    if composites == [] then
      assert cur.composites + composites == cur.composites;
      [cur]
    else
      var c := composites[0];
      assert composites == [c] + composites[1..];
      if maxLen > 0 && |LineText(cur)| + |c| + 2 > maxLen then
        var rest := Wrap(Line(CONTINUATION_CODE, [c]), composites[1..], maxLen);
        assert ([cur] + rest)[1..] == rest;
        [cur] + rest
      else
        SegmentSnoc(cur.composites, c);
        Wrap(Line(cur.start, cur.composites + [c]), composites[1..], maxLen)
  }

  /**
   With a positive `maxLen`, every line that took a composite without a
   break fits within `maxLen`: the first line fits unless it is still the
   line the writer started from, and a continuation line fits unless it
   holds a single composite.
   */
  lemma {:induction false} WrappedLinesFit(cur: Line, composites: seq<string>, maxLen: int)
    requires maxLen > 0
    ensures var lines := Wrap(cur, composites, maxLen);
      && (lines[0] == cur || Fits(lines[0], maxLen))
      && forall i | 1 <= i < |lines| :: |lines[i].composites| == 1 || Fits(lines[i], maxLen)
    decreases |composites|
  {
    if composites != [] {
      var c := composites[0];
      if |LineText(cur)| + |c| + 2 > maxLen {
        var next := Line(CONTINUATION_CODE, [c]);
        WrappedLinesFit(next, composites[1..], maxLen);
        var rest := Wrap(next, composites[1..], maxLen);
        assert Wrap(cur, composites, maxLen) == [cur] + rest;
        forall i | 1 <= i < |rest| + 1
          ensures |([cur] + rest)[i].composites| == 1 || Fits(([cur] + rest)[i], maxLen)
        {
          assert ([cur] + rest)[i] == rest[i - 1];
          if i == 1 && rest[0] != next {
            assert Fits(rest[0], maxLen);
          }
        }
      } else {
        var next := Line(cur.start, cur.composites + [c]);
        SegmentSnoc(cur.composites, c);
        assert Fits(next, maxLen);
        WrappedLinesFit(next, composites[1..], maxLen);
      }
    }
  }

  /** The lines of text: each closed by '/', and all but the last followed by a line break. */
  function Render(lines: seq<Line>): (s: string)
    requires |lines| >= 1
    ensures |s| >= 1 && s[|s| - 1] == '/'
    decreases |lines|
  {
    if |lines| == 1 then LineText(lines[0]) + "/"
    else LineText(lines[0]) + "/\n" + Render(lines[1..])
  }

  /**
   One composite of the writer's loop: the line it goes on, and the text
   written before that line is reached (the current line closed by "/\n",
   when the composite does not fit on it).
   */
  lemma WrapStep(cur: Line, composites: seq<string>, i: nat, maxLen: int) returns (next: Line)
    requires i < |composites|
    ensures var c := composites[i];
      var broken := maxLen > 0 && |LineText(cur)| + |c| + 2 > maxLen;
      var after := Render(Wrap(next, composites[i + 1..], maxLen));
      && LineText(next) == (if broken then CONTINUATION_CODE else LineText(cur)) + "," + c
      && (broken ==> Render(Wrap(cur, composites[i..], maxLen)) == (LineText(cur) + "/\n") + after)
      && (!broken ==> Render(Wrap(cur, composites[i..], maxLen)) == after)
  {
    var c := composites[i];
    var rest := composites[i + 1..];
    var broken := maxLen > 0 && |LineText(cur)| + |c| + 2 > maxLen;
    assert composites[i..] == [c] + rest;
    assert ([c] + rest)[0] == c && ([c] + rest)[1..] == rest;
    if broken {
      next := Line(CONTINUATION_CODE, [c]);
      assert [c][1..] == [];
      assert Segment([c]) == "," + c;
      var lines := Wrap(next, rest, maxLen);
      assert Wrap(cur, [c] + rest, maxLen) == [cur] + lines;
      assert ([cur] + lines)[1..] == lines;
    } else {
      next := Line(cur.start, cur.composites + [c]);
      SegmentSnoc(cur.composites, c);
    }
  }

  /** When no composite is left, the line being filled is the last one, closed by '/'. */
  lemma WrapEnd(cur: Line, maxLen: int)
    ensures Render(Wrap(cur, [], maxLen)) == LineText(cur) + "/"
  {
  }

  /** The first line's start: the code and the fixed fields, separated by commas. */
  function Head(d: Detail): string {
    TRANSACTION_DETAIL_CODE + "," + d.typeCode + "," + d.amount + "," + d.fundsType
  }

  /** The maximum line length the writer is given: the first option, or none (zero). */
  function MaxLen(opts: seq<int>): int {
    if |opts| > 0 then opts[0] else 0
  }

  /** The physical lines of a detail written with the options `opts`. */
  function Lines(d: Detail, opts: seq<int>): seq<Line> {
    Wrap(Line(Head(d), []), d.composite, MaxLen(opts))
  }

  /** The text of a detail written with the options `opts`. */
  function Rendered(d: Detail, opts: seq<int>): string {
    Render(Lines(d, opts))
  }

  /**
   Without a positive maximum length, a detail is written as one line: the
   head, then a comma and each composite in order, then '/'.
   */
  lemma SingleLine(d: Detail, opts: seq<int>)
    requires |opts| == 0 || opts[0] <= 0
    ensures Rendered(d, opts) == Head(d) + Segment(d.composite) + "/"
  {
    assert [] + d.composite == d.composite;
    assert Lines(d, opts) == [Line(Head(d), d.composite)];
  }

  /**
   With a positive maximum length, a detail that has composites and would
   not fit on one line is written on more than one.
   */
  lemma WrapsWhenTooLong(d: Detail, opts: seq<int>)
    requires MaxLen(opts) > 0 && d.composite != []
    requires |Head(d) + Segment(d.composite)| + 1 > MaxLen(opts)
    ensures |Lines(d, opts)| >= 2
  {
    var lines := Lines(d, opts);
    assert [] + d.composite == d.composite;
    FlattenSingle(lines);
    WrappedLinesFit(Line(Head(d), []), d.composite, MaxLen(opts));
    assert !Fits(Line(Head(d), d.composite), MaxLen(opts));
  }

  /** A line whose start holds no terminator or line break and whose composites are plain. */
  ghost predicate PlainLine(l: Line) {
    Unterminated(l.start) && AllPlain(l.composites)
  }

  /** The text of such a line holds no terminator and no line break. */
  lemma LineTextUnterminated(l: Line)
    requires PlainLine(l)
    ensures Unterminated(LineText(l))
  {
    SegmentUnterminated(l.composites);
    UnterminatedConcat(l.start, Segment(l.composites));
  }

  /**
   Wrapping plain composites after a plain line gives plain lines: the
   continuation code holds no terminator, and the writer adds none inside a
   line.
   */
  lemma {:induction false} WrapKeepsLinesPlain(cur: Line, composites: seq<string>, maxLen: int)
    requires PlainLine(cur) && AllPlain(composites)
    ensures forall i | 0 <= i < |Wrap(cur, composites, maxLen)| :: PlainLine(Wrap(cur, composites, maxLen)[i])
    decreases |composites|
  {
    if composites != [] {
      var c := composites[0];
      assert Plain(c);
      AllPlainTail(composites);
      if maxLen > 0 && |LineText(cur)| + |c| + 2 > maxLen {
        var next := Line(CONTINUATION_CODE, [c]);
        assert PlainLine(next);
        WrapKeepsLinesPlain(next, composites[1..], maxLen);
        var rest := Wrap(next, composites[1..], maxLen);
        assert Wrap(cur, composites, maxLen) == [cur] + rest;
        forall i | 0 <= i < |rest| + 1 ensures PlainLine(([cur] + rest)[i]) {
          if i > 0 {
            assert ([cur] + rest)[i] == rest[i - 1];
          }
        }
      } else {
        var next := Line(cur.start, cur.composites + [c]);
        assert PlainLine(next) by {
          forall i | 0 <= i < |next.composites| ensures Plain(next.composites[i]) {
            if i < |cur.composites| {
              assert next.composites[i] == cur.composites[i];
            }
          }
        }
        WrapKeepsLinesPlain(next, composites[1..], maxLen);
        assert Wrap(cur, composites, maxLen) == Wrap(next, composites[1..], maxLen);
      }
    }
  }

  /** Lines whose texts hold no '/' and no line break. */
  ghost predicate Unbroken(lines: seq<Line>) {
    forall i | 0 <= i < |lines| :: Unterminated(LineText(lines[i]))
  }

  /**
   When the lines hold no '/' and no line break of their own, every line
   break of the text comes right after a '/': each line but the last ends
   with "/\n", and the last ends with '/' alone.
   */
  lemma {:induction false} LineBreaksFollowTerminators(lines: seq<Line>)
    requires |lines| >= 1 && Unbroken(lines)
    ensures forall i | 0 <= i < |Render(lines)| && Render(lines)[i] == '\n' :: 0 < i && Render(lines)[i - 1] == '/'
    decreases |lines|
  {
    var s := Render(lines);
    var text := LineText(lines[0]);
    assert Unterminated(text);
    if |lines| > 1 {
      var rest := Render(lines[1..]);
      assert Unbroken(lines[1..]) by {
        forall i | 0 <= i < |lines| - 1 ensures Unterminated(LineText(lines[1..][i])) {
          assert lines[1..][i] == lines[i + 1];
        }
      }
      LineBreaksFollowTerminators(lines[1..]);
      assert s == text + "/\n" + rest;
      assert s[|text|] == '/' && s[|text| + 1] == '\n';
      forall i | 0 <= i < |s| && s[i] == '\n' ensures 0 < i && s[i - 1] == '/' {
        if i < |text| {
          assert false;
        } else if i > |text| + 1 {
          var j := i - |text| - 2;
          assert s[i] == rest[j];
          assert s[i - 1] == rest[j - 1];
        }
      }
    }
  }

  /**
   In the text of a detail whose fields hold no delimiter and no line break,
   whatever the options, every line break comes right after a '/': each
   line but the last ends with "/\n", and no field breaks a line.
   */
  lemma RenderedLineBreaks(d: Detail, opts: seq<int>)
    requires PlainFields(d)
    ensures forall i | 0 <= i < |Rendered(d, opts)| && Rendered(d, opts)[i] == '\n' ::
      0 < i && Rendered(d, opts)[i - 1] == '/'
  {
    var head := Line(Head(d), []);
    assert Unterminated(Head(d)) by {
      var fixed := [d.typeCode, d.amount, d.fundsType];
      assert AllPlain(fixed);
      JoinUnterminated(fixed);
      assert Head(d) == TRANSACTION_DETAIL_CODE + "," + Join(fixed) by {
        assert Join(fixed) == d.typeCode + "," + Join(fixed[1..]);
        assert Join(fixed[1..]) == d.amount + "," + d.fundsType;
      }
      UnterminatedConcat(TRANSACTION_DETAIL_CODE + ",", Join(fixed));
    }
    assert PlainLine(head);
    var lines := Lines(d, opts);
    WrapKeepsLinesPlain(head, d.composite, MaxLen(opts));
    forall i | 0 <= i < |lines| ensures Unterminated(LineText(lines[i])) {
      LineTextUnterminated(lines[i]);
    }
    LineBreaksFollowTerminators(lines);
  }

  /**
   A line can still be longer than the maximum: a composite that fits
   neither after the head nor after the continuation code goes on a
   continuation line of its own, and that line, with its '/', is longer than
   the maximum. (With a maximum of 10, the composite "remittance" of a
   detail with empty fixed fields is written "16,,,/\n88,remittance/".)
   */
  lemma ContinuationLineCanExceedMax(d: Detail, maxLen: int)
    requires maxLen > 0 && |d.composite| == 1
    requires |Head(d)| + |d.composite[0]| + 2 > maxLen
    requires |CONTINUATION_CODE| + |d.composite[0]| + 2 > maxLen
    ensures Lines(d, [maxLen]) == [Line(Head(d), []), Line(CONTINUATION_CODE, d.composite)]
    ensures !Fits(Lines(d, [maxLen])[1], maxLen)
  {
    var first, second := Line(Head(d), []), Line(CONTINUATION_CODE, d.composite);
    assert d.composite[1..] == [] && [d.composite[0]] == d.composite;
    assert LineText(first) == Head(d);
    assert Lines(d, [maxLen]) == Wrap(first, d.composite, maxLen) == [first] + Wrap(second, [], maxLen);
    assert Segment(d.composite) == "," + d.composite[0] + Segment([]);
  }

  /**
   A head that is already longer than the maximum, with its '/', gives a
   first line longer than the maximum, whatever the composites.
   */
  lemma HeadCanExceedMax(d: Detail, maxLen: int)
    requires maxLen > 0 && |Head(d)| + 1 > maxLen
    ensures !Fits(Lines(d, [maxLen])[0], maxLen)
  {
    var first := Lines(d, [maxLen])[0];
    assert first.start == Head(d);
    assert LineText(first) == Head(d) + Segment(first.composites);
  }

  // --------------------------------------------------------------- round trip

  /** The string fields of `d`, composites included, can be written as fields. */
  ghost predicate PlainFields(d: Detail) {
    Plain(d.typeCode) && Plain(d.amount) && Plain(d.fundsType) && AllPlain(d.composite)
  }

  /** The single line of a detail is its code and all its fields joined by commas, closed by '/'. */
  lemma SingleLineJoins(d: Detail)
    ensures Rendered(d, []) == TRANSACTION_DETAIL_CODE + "," + Join([d.typeCode, d.amount, d.fundsType] + d.composite) + "/"
  {
    var fixed := [d.typeCode, d.amount, d.fundsType];
    var code := TRANSACTION_DETAIL_CODE + ",";
    assert Head(d) == code + Join(fixed) by {
      assert Join(fixed) == d.typeCode + "," + Join(fixed[1..]);
      assert Join(fixed[1..]) == d.amount + "," + d.fundsType;
    }
    JoinAppend(fixed, d.composite);
    SingleLine(d, []);
    Associative(code, Join(fixed), Segment(d.composite));
  }

  /** Field `i` of the line is read, from its offset in `texts`, as `texts[i]` with its delimiter. */
  predicate ReadsAt(t: Tokenizer, line: string, texts: seq<string>, i: nat)
    requires i < |texts|
  {
    t.ReadField(line, 3 + StandardTokenizer.Offset(texts, i)) == FieldRead(texts[i], |texts[i]| + 1, true)
  }

  /**
   The composite loop reads back the fields from `k` on of a line in which
   each field `i` is read, from its offset, as `texts[i]`; it stops at the
   end of the line.
   */
  lemma {:induction false} CompositesBack(t: Tokenizer, line: string, texts: seq<string>, k: nat)
    requires t.Sound() && k <= |texts| && |line| == 3 + StandardTokenizer.Offset(texts, |texts|)
    requires forall i | k <= i < |texts| :: ReadsAt(t, line, texts, i)
    ensures ReadComposites(t, line, 3 + StandardTokenizer.Offset(texts, k), |line|) == Composites(texts[k..], |line|, true)
    decreases |texts| - k
  {
    var at := 3 + StandardTokenizer.Offset(texts, k);
    if k < |texts| {
      assert ReadsAt(t, line, texts, k);
      StandardTokenizer.OffsetBelowEnd(texts, k);
      assert at < |line|;
      CompositesBack(t, line, texts, k + 1);
      assert texts[k..] == [texts[k]] + texts[k + 1..];
    } else {
      assert texts[k..] == [];
    }
  }

  /**
   Reading the fixed fields of a line in which each field `i` is read, from
   its offset, as `texts[i]`: they take the first three texts and the cursor
   stops after the third.
   */
  lemma FixedBack(t: Tokenizer, line: string, texts: seq<string>, before: Detail)
    requires t.Sound() && |texts| >= 3
    requires forall i | 0 <= i < 3 :: ReadsAt(t, line, texts, i)
    ensures ParseFixed(t, line, Outcome(before, 3, None))
         == Outcome(before.(typeCode := texts[0], amount := texts[1], fundsType := texts[2]),
                    3 + StandardTokenizer.Offset(texts, 3), None)
  {
    var at1 := 3 + StandardTokenizer.Offset(texts, 1);
    var at2 := 3 + StandardTokenizer.Offset(texts, 2);
    var at3 := 3 + StandardTokenizer.Offset(texts, 3);
    assert at1 == 3 + |texts[0]| + 1 && at2 == at1 + |texts[1]| + 1 && at3 == at2 + |texts[2]| + 1;
    assert t.ReadField(line, 3) == FieldRead(texts[0], |texts[0]| + 1, true) by {
      assert ReadsAt(t, line, texts, 0);
      assert StandardTokenizer.Offset(texts, 0) == 0;
    }
    var o1 := Step(t, line, Outcome(before, 3, None), 0);
    assert o1 == Outcome(before.(typeCode := texts[0]), at1, None);
    var o2 := Step(t, line, o1, 1);
    assert ReadsAt(t, line, texts, 1);
    assert o2 == Outcome(before.(typeCode := texts[0], amount := texts[1]), at2, None);
    assert ReadsAt(t, line, texts, 2);
  }

  /** The texts of the fields of a detail, in the order they are written and read. */
  function FieldTexts(d: Detail): seq<string> {
    [d.typeCode, d.amount, d.fundsType] + d.composite
  }

  /**
   With the concrete tokenizer, the single-line text of a detail whose fields
   hold no delimiter is measured to its end, starts with the transaction
   detail code, and has each field read back from its offset.
   */
  lemma RenderedReads(d: Detail)
    requires PlainFields(d)
    ensures var s, texts := Rendered(d, []), FieldTexts(d);
      && |s| == 3 + StandardTokenizer.Offset(texts, |texts|)
      && StandardTokenizer.STANDARD.GetSize(s) == |s|
      && s[..2] == TRANSACTION_DETAIL_CODE
      && forall i | 0 <= i < |texts| :: ReadsAt(StandardTokenizer.STANDARD, s, texts, i)
  {
    var texts := FieldTexts(d);
    var head := TRANSACTION_DETAIL_CODE + ",";
    var s := Rendered(d, []);
    assert s == head + Join(texts) + "/" by {
      SingleLineJoins(d);
    }
    assert AllPlain(texts) by {
      forall i | 0 <= i < |texts| ensures Plain(texts[i]) {
        if i >= 3 {
          assert texts[i] == d.composite[i - 3];
        }
      }
    }
    assert StandardTokenizer.STANDARD.GetSize(s) == |s| by {
      var body := head + Join(texts);
      JoinUnterminated(texts);
      assert Unterminated(body) by {
        assert forall i | 3 <= i < |body| :: body[i] == Join(texts)[i - 3];
      }
      StandardTokenizer.GetSizeOfRecord(body);
    }
    assert |s| == 3 + StandardTokenizer.Offset(texts, |texts|) by {
      var last := |texts| - 1;
      StandardTokenizer.ReadJoined(head, texts, last);
      assert StandardTokenizer.Offset(texts, |texts|) == StandardTokenizer.Offset(texts, last) + |texts[last]| + 1;
    }
    forall i | 0 <= i < |texts| ensures ReadsAt(StandardTokenizer.STANDARD, s, texts, i) {
      StandardTokenizer.ReadJoined(head, texts, i);
      StandardTokenizer.StandardReads(s, 3 + StandardTokenizer.Offset(texts, i));
    }
  }

  /**
   With the concrete tokenizer, a valid detail whose fields hold no
   delimiter reads back from its own single-line text: same fixed fields,
   its composites appended to those the detail already held, no error, the
   whole text consumed.
   */
  lemma RoundTrip(v: Validators, d: Detail, before: Detail)
    requires PlainFields(d) && Validate(d, v).None?
    ensures StandardTokenizer.STANDARD.Sound()
    ensures Parsed(StandardTokenizer.STANDARD, v, Rendered(d, []), before)
         == Outcome(Detail(d.typeCode, d.amount, d.fundsType, before.composite + d.composite), |Rendered(d, [])|, None)
  {
    StandardTokenizer.StandardIsSound();
    var texts := FieldTexts(d);
    var s := Rendered(d, []);
    RenderedReads(d);
    assert s[..|s|] == s;
    FixedBack(StandardTokenizer.STANDARD, s, texts, before);
    CompositesBack(StandardTokenizer.STANDARD, s, texts, 3);
    assert texts[3..] == d.composite;
  }

  // ------------------------------------------------------------------- class

  /** A transaction detail whose fields the parser assigns in place. */
  class TransactionDetail {
    var typeCode: string
    var amount: string
    var fundsType: string
    var composite: seq<string>

    /** The current field values. */
    function Value(): Detail
      reads this
    {
      Detail(typeCode, amount, fundsType, composite)
    }

    /** A detail with every field at its zero value. */
    constructor ()
      ensures Value() == EMPTY
    {
      typeCode, amount, fundsType, composite := "", "", "", [];
    }

    /**
     Parses a transaction detail line into this detail and returns the number
     of characters consumed, or zero and the error.
     */
    method Parse(t: Tokenizer, v: Validators, data: string) returns (read: int, err: Option<Error>)
      requires t.Sound()
      modifies this
      ensures Outcome(Value(), read, err) == Parsed(t, v, data, old(Value()))
    {
      var length := t.GetSize(data);
      if length < 3 {
        return 0, Some(UnableToParse(AccountTransactionPrefix, WholeRecord));
      }
      var line := data[..length];

      if TRANSACTION_DETAIL_CODE != data[..2] {
        return 0, Some(UnableToParse(FileHeaderPrefix, RecordCode));
      }
      read := 3;
      // `o` follows the reads of the specification, one fixed field at a time.
      ghost var o := Outcome(Value(), read, None);
      var field := t.ReadField(line, read);
      typeCode := field.value;
      o := Step(t, line, o, 0);
      if !field.ok {
        return 0, Some(UnableToParse(AccountTransactionPrefix, TypeCode));
      }
      read := read + field.size;
      assert o == Outcome(Value(), read, None);

      field := t.ReadField(line, read);
      amount := field.value;
      o := Step(t, line, o, 1);
      if !field.ok {
        return 0, Some(UnableToParse(AccountTransactionPrefix, Amount));
      }
      read := read + field.size;
      assert o == Outcome(Value(), read, None);

      field := t.ReadField(line, read);
      fundsType := field.value;
      o := Step(t, line, o, 2);
      if !field.ok {
        return 0, Some(UnableToParse(AccountTransactionPrefix, FundsType));
      }
      read := read + field.size;
      assert o == Outcome(Value(), read, None);

      var ok;
      read, ok := ReadCompositeFields(t, line, read, length);
      if !ok {
        return 0, Some(UnableToParse(AccountTransactionPrefix, Composite));
      }

      err := Validate(Value(), v);
      if err.Some? {
        return 0, err;
      }
      return read, None;
    }

    /**
     The composite loop of `Parse`: from position `at`, fields are read and
     appended to the composites until the cursor reaches `length`; a failed
     read stops it. Returns where the loop stopped and whether every read
     succeeded.
     */
    method ReadCompositeFields(t: Tokenizer, line: string, at: int, length: int) returns (read: int, ok: bool)
      requires t.Sound()
      modifies this
      ensures var c := ReadComposites(t, line, at, length);
        && read == c.end && ok == c.ok
        && Value() == old(Value()).(composite := old(composite) + c.values)
    {
      ghost var fixed := Value();
      // `whole` is what the specification's composite loop reads; `appended` is what this one has read so far.
      ghost var whole := ReadComposites(t, line, at, length);
      ghost var appended: seq<string> := [];
      read := at;
      while read < length
        invariant Value() == fixed.(composite := fixed.composite + appended)
        invariant var rest := ReadComposites(t, line, read, length);
          whole == Composites(appended + rest.values, rest.end, rest.ok)
        decreases length - read
      {
        var field := t.ReadField(line, read);
        ReadCompositesStep(t, line, read, read + field.size, length);
        if !field.ok {
          assert appended + [] == appended;
          return 0, false;
        }
        ghost var previous := read;
        read := read + field.size;
        ghost var rest := ReadComposites(t, line, read, length);
        assert ReadComposites(t, line, previous, length) == Composites([field.value] + rest.values, rest.end, rest.ok);
        Associative(appended, [field.value], rest.values);
        Associative(fixed.composite, appended, [field.value]);
        composite := composite + [field.value];
        appended := appended + [field.value];
      }
      assert appended + [] == appended;
      ok := true;
    }

    /**
     Writes this detail as text. The first option, when there is one and it
     is positive, is the maximum line length; further options are ignored.
     */
    method String(opts: seq<int>) returns (s: string)
      ensures s == Rendered(Value(), opts)
    {
      var total := "";
      var buf := TRANSACTION_DETAIL_CODE + "," + typeCode + "," + amount + "," + fundsType;
      var maxLen := 0;
      if |opts| > 0 {
        maxLen := opts[0];
      }
      // `cur` is the line being filled, as the specification sees it.
      ghost var cur := Line(Head(Value()), []);
      ghost var target := Rendered(Value(), opts);
      var composites := composite;
      for i := 0 to |composites|
        invariant buf == LineText(cur)
        invariant total + Render(Wrap(cur, composites[i..], maxLen)) == target
      {
        var c := composites[i];
        ghost var next := WrapStep(cur, composites, i, maxLen);
        ghost var after := Render(Wrap(next, composites[i + 1..], maxLen));
        if maxLen > 0 {
          if |buf| + |c| + 2 > maxLen {
            buf := buf + "/\n";
            Associative(total, buf, after);
            total := total + buf;
            buf := CONTINUATION_CODE;
          }
        }
        buf := buf + "," + c;
        cur := next;
      }
      WrapEnd(cur, maxLen);
      assert composites[|composites|..] == [];
      buf := buf + "/";
      total := total + buf;
      s := total;
    }
  }
}
