# BAI2 group header and transaction detail records in Dafny

This project models two record codecs of the Moov BAI2 library (BAI Cash
Management Balance Reporting Specifications, Version 2):

- the group header, record type 02 (`pkg/lib/record_group_header.go`);
- the transaction detail, record type 16, whose trailing composite fields may
  be wrapped onto continuation lines of record type 88
  (`pkg/lib/record_transaction_detail.go`).

Each record has three operations:

- `validate` is a fixed-order chain of field checks that reports the first
  failure;
- `parse` checks the two-character record code, reads the fields one after
  the other with a character cursor, assigns each field as it is read, then
  validates;
- `string` writes the record back as delimited text.

## Layout

- `util.dfy` (module `Util`) holds the interface the codecs use from the
  library's util package:
  - the record codes "02", "16" and "88";
  - structured errors: "unable to parse" or "invalid", under a record prefix,
    naming a field;
  - the field readers and the record-length helper, bundled as the function
    values of a `Tokenizer`;
  - the six format validators, as the function values of `Validators`.

  The util package's implementation is not part of this model. The only facts
  assumed about it are in `Tokenizer.Sound`:
  - the record length lies within the data;
  - a successful read consumes at least one character.
- `text.dfy` (module `Text`) holds comma joins, the ",c" runs of composite
  fields, and the base-10 rendering of an integer (Go's `%d`).
- `tokenizer.dfy` (module `StandardTokenizer`) holds a concrete tokenizer:
  - a field is the text up to the next ',' or '/';
  - reading a field consumes that text and its delimiter;
  - the record length runs through the first '/'.

  This tokenizer is an assumption. It is used only by the round-trip lemmas,
  never by the codecs.
- `group_header.dfy` (module `GroupHeaders`) models the group header.
- `transaction_detail.dfy` (module `TransactionDetails`) models the
  transaction detail.

Each record is a class whose fields `Parse` assigns in place, and each class
has a `String` method.
- `Parse` is proved against a specification function, `Parsed`. Its
  postcondition says the new fields, the count and the error are exactly
  those of `Parsed` applied to the old fields.
- `String` is proved equal to a specification function, `Rendered`.
- The long straight run of reads (group header) and the composite loop
  (transaction detail) are each proved in a helper method of their own that
  `Parse` calls: `ReadRecordFields` and `ReadCompositeFields`.

The properties of the record formats are lemmas about the specification
functions:
- validation reports the first failing rule, and fails exactly when a rule
  fails;
- every failing parse consumes nothing;
- a parse assigns fields in order with no rollback;
- composites are only appended, in order;
- the writer's output has a fixed shape and a fixed wrap rule;
- parsing the written text gives the record back, with the concrete
  tokenizer.

Three behaviours of the code are worth stating on their own:
- **Line lengths.** A wrapped transaction detail keeps a line within the
  maximum only when a composite is appended without a break
  (`WrappedLinesFit`). Lines can still be longer than the maximum in two ways:
  - a composite that fits neither after the head nor after the continuation
    code is written on a continuation line of its own that is too long
    (`ContinuationLineCanExceedMax`);
  - a head that is already too long makes the first line too long
    (`HeadCanExceedMax`).
- **Record code.** A record whose first two characters are not the record's
  code is rejected before any field is read, with nothing assigned, count 0
  and the error `UnableToParse(FileHeaderPrefix, RecordCode)`
  (`GroupHeaders.Parsed`, `TransactionDetails.Parsed`).
- **Record-code error prefix.** Both parsers format the record-code error with
  `fhParseErrorFmt`, a format string defined outside the two files modelled
  here. The model takes its prefix to be the file header's, and reports the
  error as `UnableToParse(FileHeaderPrefix, RecordCode)`. That prefix is
  inferred from the format's name; its text is not part of this model.

## Model

| member | source | states |
|---|---|---|
| GroupHeaders.ValidateReportsFirstFailure | pkg/lib/record_group_header.go:29-52 | Validation fails exactly when one of the six rules breaks, checked in order: Originator non-empty; GroupStatus in 0..4; AsOfDate non-empty and a valid date; AsOfTime empty or a valid time; CurrencyCode empty or a valid code; AsOfDateModifier in 0..4. The error names the first broken rule under the GroupHeader prefix. |
| GroupHeaders.Get | pkg/lib/record_group_header.go:19-27 | Field k, in parse order, is an integer exactly for GroupStatus and AsOfDateModifier. |
| GroupHeaders.GetAfterSet | pkg/lib/record_group_header.go:73-119 | Assigning field k gives it the value assigned and leaves every other field as it was. |
| GroupHeaders.ReadAt | pkg/lib/record_group_header.go:87-118 | GroupStatus and AsOfDateModifier are read with the integer reader and the other fields with the text reader. |
| GroupHeaders.Step | pkg/lib/record_group_header.go:72-77 | One read of a field. After an earlier failure nothing changes. A failed read gives count 0 and an error naming that field. A successful read moves the cursor forward by at least one character. |
| GroupHeaders.ParseFieldsFrom | pkg/lib/record_group_header.go:72-119 | The reads from field k on. A failure gives count 0 and an "unable to parse" error. Success moves the cursor past at least one character per field read. |
| GroupHeaders.ParseFieldsInTurn | pkg/lib/record_group_header.go:72-119 | The seven reads written out one after the other are the reads of every field in turn. |
| GroupHeaders.Parsed | pkg/lib/record_group_header.go:54-126 | Every failing parse consumes 0 characters, validation failures included. A record shorter than 3 characters is rejected with "unable to parse record". One that does not start with the group header code is rejected with the record-code error. Both leave the header unchanged. A successful parse leaves a header that passes validation and consumes at least 3 + 7 characters. |
| GroupHeaders.ReadFields | pkg/lib/record_group_header.go:72-119 | The reads on their own yield one value per field read, up to and including the first failure. Success reads all seven fields. A failure consumes 0 and names the field whose read failed. |
| GroupHeaders.ReadFieldsKinds | pkg/lib/record_group_header.go:72-119 | Every value read is of the kind its field calls for. |
| GroupHeaders.ParseFieldsAssigns | pkg/lib/record_group_header.go:73-119 | Parsing into a header is the same as making the reads on their own and then assigning the values, in order, to the header's fields. |
| GroupHeaders.AssignAll | pkg/lib/record_group_header.go:73-119 | Once all seven fields are assigned, nothing of the old header remains. |
| GroupHeaders.ParsedAssigns | pkg/lib/record_group_header.go:54-126 | The header a parse leaves is the old one with the values read assigned in order. A successful parse has read all seven. |
| GroupHeaders.ParsedIgnoresHeader | pkg/lib/record_group_header.go:54-126 | The count and the error of a parse depend only on the data, not on the header's old fields. |
| GroupHeaders.ParseOverwritesInOrder | pkg/lib/record_group_header.go:73-119 | Fields are assigned in order, each before its read is checked, and are not rolled back. Fields up to and including the failing one hold what was read. Later fields keep their old values. Only a parse that reads all seven replaces the old header entirely. |
| GroupHeaders.TextsArePlain | pkg/lib/record_group_header.go:128-145 | When the string fields hold no delimiter, neither does any written field, including the "%d" renderings of the integers. |
| GroupHeaders.RenderedShape | pkg/lib/record_group_header.go:128-145 | When the string fields hold no delimiter or line break, the text starts with "02,", ends with its only '/', and holds no line break. |
| GroupHeaders.ModifierNotPositiveIsEmpty | pkg/lib/record_group_header.go:138-142 | A modifier of 0 and a negative modifier are written identically, as an empty field before the '/'. |
| GroupHeaders.Values | pkg/lib/record_group_header.go:19-27 | The fields of a header as seven values of the right kinds, in parse order. |
| GroupHeaders.AssignValues | pkg/lib/record_group_header.go:73-119 | Assigning every field of a header to any other header gives that header. |
| GroupHeaders.ReadsBack | pkg/lib/record_group_header.go:72-119 | If each field of a line reads back, from its offset, as the value it was written from, the reads from field k on yield those values and stop after the last field. |
| GroupHeaders.ParsesBack | pkg/lib/record_group_header.go:72-119 | On such a line, the seven reads assign the values to any header and consume the line through the last field. |
| GroupHeaders.ReadsField | pkg/lib/record_group_header.go:128-145 | With the concrete tokenizer, field k of a written header, with a modifier that is not negative, reads back as the value it was written from. |
| GroupHeaders.FieldsRoundTrip | pkg/lib/record_group_header.go:70-119 | With the concrete tokenizer, the seven reads of a written header with plain fields and a modifier that is not negative give back its fields and consume the whole text. |
| GroupHeaders.RoundTrip | pkg/lib/record_group_header.go:54-145 | With the concrete tokenizer, a valid header with plain string fields parses back from its own text: same fields, no error, the whole text consumed, whatever the header held before. |
| GroupHeaders.GroupHeader.constructor | pkg/lib/record_group_header.go:19-27 | A new header holds the zero value in every field. |
| GroupHeaders.GroupHeader.Parse | pkg/lib/record_group_header.go:54-126 | The new fields, the count and the error are exactly those of `Parsed` applied to the old fields. |
| GroupHeaders.GroupHeader.ReadRecordFields | pkg/lib/record_group_header.go:70-119 | The seven reads, with each field assigned as it is read, leave exactly the fields, cursor and error of the specification's reads. |
| GroupHeaders.GroupHeader.String | pkg/lib/record_group_header.go:128-145 | The text written is the header's code, then the seven fields comma-joined, with integers in base 10 and a modifier that is not positive left empty, then '/'. |
| Text.IntToDecimal | pkg/lib/record_group_header.go:134 | The "%d" rendering holds no delimiter and starts with '-' exactly for a negative number. |
| StandardTokenizer.ParseIntRoundTrip | pkg/lib/record_group_header.go:134 | The concrete integer reader reads back the "%d" rendering of any integer as that integer. |
| TransactionDetails.ValidateReportsFirstFailure | pkg/lib/record_transaction_detail.go:31-43 | Validation fails exactly when TypeCode, Amount or FundsType is non-empty and fails its validator, checked in that order; composites are never inspected. The error names the first failing field under the AccountTransaction prefix. |
| TransactionDetails.Step | pkg/lib/record_transaction_detail.go:64-83 | One read of a fixed field. After an earlier failure nothing changes. A failed read gives count 0 and an error naming that field. A success moves the cursor forward by at least one character. The composites are untouched. |
| TransactionDetails.ReadComposites | pkg/lib/record_transaction_detail.go:85-93 | The composite loop stops at or past the record length when every read succeeds. It stops with count 0 at the first failed read. |
| TransactionDetails.Parsed | pkg/lib/record_transaction_detail.go:45-100 | Every failing parse consumes 0 characters, validation failures included. A record shorter than 3 characters is rejected with "unable to parse record". One that does not start with "16" is rejected with the record-code error. Both leave the detail unchanged. Success leaves a valid detail and consumes at least the record length and at least 3 characters. The old composites are always kept as a prefix of the new ones. |
| TransactionDetails.ParsedIgnoresDetail | pkg/lib/record_transaction_detail.go:45-100 | The count, the error and the composites appended depend only on the data, not on the detail's old fields. |
| TransactionDetails.Wrap | pkg/lib/record_transaction_detail.go:117-131 | Every composite is written exactly once, in order, across the lines. Lines after the first start with the continuation code "88" and hold at least one composite. Without a positive maximum there is one line. |
| TransactionDetails.WrappedLinesFit | pkg/lib/record_transaction_detail.go:117-131 | With a positive maximum, a line that took a composite without a break fits within the maximum, its '/' included. The first line fits unless it took no composite. A continuation line fits unless it holds a single composite. |
| TransactionDetails.Render | pkg/lib/record_transaction_detail.go:119-136 | The text always ends with '/', never with a line break. |
| TransactionDetails.WrapStep | pkg/lib/record_transaction_detail.go:117-131 | Before composite c, the line is closed with "/\n" and a line "88" is started exactly when the maximum is positive and the line's length + len(c) + 2 exceeds it. Then ",c" is appended. |
| TransactionDetails.SingleLine | pkg/lib/record_transaction_detail.go:107-134 | With no options, or a first option that is not positive, the text is one line: "16,", TypeCode, ',', Amount, ',', FundsType, then ",c" for each composite in order, then '/'. Later options are ignored. |
| TransactionDetails.WrapsWhenTooLong | pkg/lib/record_transaction_detail.go:117-131 | With a positive maximum, a detail with composites that would not fit on one line is written on at least two lines. |
| TransactionDetails.LineBreaksFollowTerminators | pkg/lib/record_transaction_detail.go:119-136 | For any lines whose texts hold no '/' or line break, every line break of the rendered text comes right after a '/'. |
| TransactionDetails.WrapKeepsLinesPlain | pkg/lib/record_transaction_detail.go:117-131 | Wrapping plain composites after a plain line gives only plain lines: the continuation code and the writer add no '/' or line break inside a line. |
| TransactionDetails.RenderedLineBreaks | pkg/lib/record_transaction_detail.go:102-137 | For a detail whose fields hold no delimiter or line break, under any options, every line break of the written text comes right after a '/'. So each line but the last ends with "/\n". |
| TransactionDetails.ContinuationLineCanExceedMax | pkg/lib/record_transaction_detail.go:117-131 | A composite that fits neither after the head nor after "88" goes on a continuation line of its own, and that line is longer than the maximum. |
| TransactionDetails.HeadCanExceedMax | pkg/lib/record_transaction_detail.go:107-131 | With a positive maximum, a head ("16," and the three fixed fields) longer than the maximum with its '/' makes the first line longer than the maximum, whatever the composites. |
| TransactionDetails.SingleLineJoins | pkg/lib/record_transaction_detail.go:107-134 | The single-line text is "16," followed by all the fields, composites included, comma-joined, then '/'. |
| TransactionDetails.CompositesBack | pkg/lib/record_transaction_detail.go:85-93 | If each field of a line reads back from its offset, the composite loop reads the fields from k on, in order, and stops exactly at the end of the line. |
| TransactionDetails.FixedBack | pkg/lib/record_transaction_detail.go:64-83 | On such a line, the three fixed reads take the first three texts and stop after the third. |
| TransactionDetails.RenderedReads | pkg/lib/record_transaction_detail.go:102-137 | With the concrete tokenizer, the single-line text of a detail with plain fields is measured to its end, starts with "16", and has every field read back from its offset. |
| TransactionDetails.RoundTrip | pkg/lib/record_transaction_detail.go:45-137 | With the concrete tokenizer, a valid detail with plain fields parses back from its single-line text: same fixed fields, its composites appended to those already held, no error, the whole text consumed. |
| TransactionDetails.TransactionDetail.constructor | pkg/lib/record_transaction_detail.go:20-22 | A new detail has empty fixed fields and no composites. |
| TransactionDetails.TransactionDetail.Parse | pkg/lib/record_transaction_detail.go:45-100 | The new fields, the count and the error are exactly those of `Parsed` applied to the old fields. |
| TransactionDetails.TransactionDetail.ReadCompositeFields | pkg/lib/record_transaction_detail.go:85-93 | The loop appends each field read to the composites, in order, keeping the old ones. It stops where the specification's loop stops and reports whether every read succeeded. |
| TransactionDetails.TransactionDetail.String | pkg/lib/record_transaction_detail.go:102-137 | The text written is exactly `Rendered` of the detail and the options. |

## Left out

- The util package's internals are not part of this model: the field readers, the record-length helper and the format validators. The readers and validators are function-valued parameters. The only facts assumed about them are in `Tokenizer.Sound`.
- The record codes are an assumption: they are fixed to the BAI2 values "02", "16" and "88", since the util package's constants are not part of this model. `GroupHeaders.RenderedShape`, the line-break lemmas and both round trips rely on these values holding no delimiter or line break.
- The concrete tokenizer is an assumption about the util package, not a model of its code. Every round-trip lemma depends on it.
- Error message text is not modelled. Errors are structured values naming the record prefix and the field.
- JSON struct tags are not modelled. They only affect the JSON encoder.
- Integers are unbounded: the model does not capture int64 overflow of GroupStatus, AsOfDateModifier, the cursor, or the wrap test's `buf.Len()+len(composite)+2`.
- The model counts characters, whereas the code counts bytes. This affects the wrap test (`buf.Len()` and `len(composite)`), the parse cursor `read` and the sizes it adds up, the record length from `GetSize`, and the slices `data[:length]` and `data[:2]`. The two agree only on ASCII text.
- `bytes.Buffer` is modelled as string concatenation.
- Composites are a sequence value, so the model does not capture slice aliasing through `append`.
- `validate` and `string` change nothing. This holds by construction: `Validate` is a function, and `String` has no `modifies` clause.
- GroupHeaders.Parsed: states only that a successful parse consumes at least 3 + 7 characters. The exact count, 3 plus the sizes of the seven reads, is the cursor the definition carries, not a separate ensures clause.
- GroupHeaders.FieldsRoundTrip: requires a modifier that is not negative. A negative modifier is written as an empty field and read back as 0. A valid header always meets this requirement.
- TransactionDetails.RoundTrip: covers only single-line text (no maximum). Reading continuation lines back belongs to the file reader, which is not part of this model.
