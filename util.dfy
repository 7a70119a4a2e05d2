/**
 The interface the record codecs use from the library's util package: the
 record codes, the field readers, the record-length helper and the format
 validators. Their implementations are not part of this model: the readers
 and validators are passed to the codecs as function values, and the only
 facts assumed about them are collected in `Tokenizer.Sound`.
 */
module Util {

  datatype Option<+T> = None | Some(value: T)

  /** Record code of a group header line (BAI2 record type 02). */
  const GROUP_HEADER_CODE: string := "02"
  /** Record code of a transaction detail line (BAI2 record type 16). */
  const TRANSACTION_DETAIL_CODE: string := "16"
  /** Record code that starts a continuation line (BAI2 record type 88). */
  const CONTINUATION_CODE: string := "88"

  /** The record an error message is prefixed with ("FileHeader", "GroupHeader", "AccountTransaction"). */
  datatype Prefix = FileHeaderPrefix | GroupHeaderPrefix | AccountTransactionPrefix

  /** The field an error message names; `WholeRecord` stands for "record". */
  datatype Field =
    | WholeRecord | RecordCode
    | Receiver | Originator | GroupStatus | AsOfDate | AsOfTime | CurrencyCode | AsOfDateModifier
    | TypeCode | Amount | FundsType | Composite

  /**
   The errors the codecs return, as structured values instead of formatted
   text: "unable to parse <field>" and "invalid <field>", each under the
   prefix of a record.
   */
  datatype Error =
    | UnableToParse(prefix: Prefix, field: Field)
    | Invalid(prefix: Prefix, field: Field)

  /** What a field reader returns: the value, the characters it consumed, and whether it succeeded. */
  datatype FieldRead<T> = FieldRead(value: T, size: int, ok: bool)

  /** The field readers and the record-length helper of the util package. */
  datatype Tokenizer = Tokenizer(
    getSize: string -> int,
    readField: (string, int) -> FieldRead<string>,
    readFieldAsInt: (string, int) -> FieldRead<int>)
  {
    /**
     What the codecs rely on: the record length lies within the data (so
     that the code can slice the data to it), and a successful read consumes
     at least one character (so that the composite loop makes progress).
     */
    ghost predicate Sound() {
      && (forall data {:trigger getSize(data)} :: 0 <= getSize(data) <= |data|)
      && (forall line, start :: readField(line, start).ok ==> readField(line, start).size >= 1)
      && (forall line, start :: readFieldAsInt(line, start).ok ==> readFieldAsInt(line, start).size >= 1)
    }

    /** The length of the record at the start of `data`. */
    function GetSize(data: string): int {
      getSize(data)
    }

    /** The field that starts at position `start` of the line. */
    function ReadField(line: string, start: int): FieldRead<string> {
      readField(line, start)
    }

    /** The field that starts at position `start` of the line, as an integer. */
    function ReadFieldAsInt(line: string, start: int): FieldRead<int> {
      readFieldAsInt(line, start)
    }
  }

  /** The format validators of the util package, left uninterpreted. */
  datatype Validators = Validators(
    date: string -> bool,
    time: string -> bool,
    currencyCode: string -> bool,
    typeCode: string -> bool,
    amount: string -> bool,
    fundsType: string -> bool)

  /** One rule of a record's validation table: the field it is about and whether it holds. */
  datatype Check = Check(field: Field, passes: bool)

  /** Check `k` is the first rule of the table that does not hold. */
  ghost predicate FirstFailing(checks: seq<Check>, k: int) {
    && 0 <= k < |checks|
    && !checks[k].passes
    && forall j | 0 <= j < k :: checks[j].passes
  }

  /** Every rule of the table holds. */
  ghost predicate AllPass(checks: seq<Check>) {
    forall i | 0 <= i < |checks| :: checks[i].passes
  }

  /**
   A validation result reports the first failing rule of the table, under the
   given prefix, and reports nothing exactly when every rule holds.
   */
  ghost predicate ReportsFirstFailure(checks: seq<Check>, prefix: Prefix, e: Option<Error>) {
    && (e.None? <==> AllPass(checks))
    && forall k | FirstFailing(checks, k) :: e == Some(Invalid(prefix, checks[k].field))
  }
}
