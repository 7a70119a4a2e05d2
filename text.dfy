/**
 The text the codecs write: comma-joined fields, the ",c" runs of composite
 fields, and the base-10 rendering of an integer (Go's "%d" verb).
 */
module Text {

  /** `s` can stand as a field: it holds no field delimiter, no terminator and no line break. */
  ghost predicate Plain(s: string) {
    forall i | 0 <= i < |s| :: s[i] != ',' && s[i] != '/' && s[i] != '\n'
  }

  /** Every text of the list can stand as a field. */
  ghost predicate AllPlain(texts: seq<string>) {
    forall i | 0 <= i < |texts| :: Plain(texts[i])
  }

  /** The texts separated by single commas. */
  function Join(texts: seq<string>): string {
    if |texts| == 0 then ""
    else if |texts| == 1 then texts[0]
    else texts[0] + "," + Join(texts[1..])
  }

  /** Each text preceded by a comma: the way composite fields are written. */
  function Segment(texts: seq<string>): string {
    if texts == [] then "" else "," + texts[0] + Segment(texts[1..])
  }

  /** Concatenation is associative. */
  lemma Associative<T>(a: seq<T>, b: seq<T>, c: seq<T>)
    ensures (a + b) + c == a + (b + c)
  {
  }

  /** Writing one more text after a run of composite fields adds a comma and that text. */
  lemma {:induction false} SegmentSnoc(texts: seq<string>, last: string)
    ensures Segment(texts + [last]) == Segment(texts) + "," + last
    decreases |texts|
  {
    if texts != [] {
      assert (texts + [last])[1..] == texts[1..] + [last];
      SegmentSnoc(texts[1..], last);
    }
  }

  /** Joining a text and then more texts: the extra texts follow, each after a comma. */
  lemma {:induction false} JoinCons(head: string, tail: seq<string>)
    ensures Join([head] + tail) == head + Segment(tail)
    decreases |tail|
  {
    if tail != [] {
      assert ([head] + tail)[1..] == tail;
      JoinCons(tail[0], tail[1..]);
      assert [tail[0]] + tail[1..] == tail;
    }
  }

  /** Joining a non-empty list followed by more texts: the join of the list, then each further text after a comma. */
  lemma {:induction false} JoinAppend(texts: seq<string>, more: seq<string>)
    requires texts != []
    ensures Join(texts + more) == Join(texts) + Segment(more)
    decreases |texts|
  {
    if |texts| == 1 {
      assert texts == [texts[0]];
      JoinCons(texts[0], more);
    } else {
      assert (texts + more)[1..] == texts[1..] + more;
      JoinAppend(texts[1..], more);
      Associative(texts[0] + ",", Join(texts[1..]), Segment(more));
    }
  }

  /** After any prefix, the join of several texts is the first text, a comma, and the join of the rest. */
  // Not a proof by induction: the attribute keeps the verifier from trying one, which runs out of resource here.
  lemma {:induction false} JoinFirst(prefix: string, texts: seq<string>)
    requires |texts| >= 2
    ensures prefix + Join(texts) + "/" == prefix + texts[0] + "," + Join(texts[1..]) + "/"
  {
    assert Join(texts) == texts[0] + "," + Join(texts[1..]);
  }

  /** The texts after the first of a plain list are plain. */
  lemma AllPlainTail(texts: seq<string>)
    requires AllPlain(texts) && texts != []
    ensures AllPlain(texts[1..])
  {
    forall i | 0 <= i < |texts| - 1 ensures Plain(texts[1..][i]) {
      assert texts[1..][i] == texts[i + 1];
    }
  }

  /** `s` holds no terminator and no line break (it may hold commas). */
  ghost predicate Unterminated(s: string) {
    forall i | 0 <= i < |s| :: s[i] != '/' && s[i] != '\n'
  }

  /** Two texts that hold no terminator and no line break make up one that holds none. */
  lemma UnterminatedConcat(a: string, b: string)
    requires Unterminated(a) && Unterminated(b)
    ensures Unterminated(a + b)
  {
    forall i | 0 <= i < |a + b| ensures (a + b)[i] != '/' && (a + b)[i] != '\n' {
      if i >= |a| {
        assert (a + b)[i] == b[i - |a|];
      }
    }
  }

  /** The run of composite fields written from plain texts holds no terminator and no line break. */
  lemma {:induction false} SegmentUnterminated(texts: seq<string>)
    requires AllPlain(texts)
    ensures Unterminated(Segment(texts))
    decreases |texts|
  {
    if texts != [] {
      AllPlainTail(texts);
      SegmentUnterminated(texts[1..]);
      assert Plain(texts[0]);
      UnterminatedConcat("," + texts[0], Segment(texts[1..]));
    }
  }

  /** Plain texts joined by commas hold no terminator and no line break. */
  lemma {:induction false} JoinUnterminated(texts: seq<string>)
    requires AllPlain(texts)
    ensures Unterminated(Join(texts))
  {
    if |texts| > 1 {
      JoinUnterminated(texts[1..]);
      var s := Join(texts);
      var rest := Join(texts[1..]);
      assert s == texts[0] + "," + rest;
      forall i | 0 <= i < |s| ensures s[i] != '/' && s[i] != '\n' {
        if i < |texts[0]| {
          assert s[i] == texts[0][i];
        } else if i > |texts[0]| {
          assert s[i] == rest[i - |texts[0]| - 1];
        }
      }
    }
  }

  predicate IsDigit(c: char) {
    '0' <= c <= '9'
  }

  predicate AllDigits(s: string) {
    forall i | 0 <= i < |s| :: IsDigit(s[i])
  }

  function DigitChar(d: nat): (c: char)
    requires d < 10
    ensures IsDigit(c) && c as int - '0' as int == d
  {
    (d + '0' as int) as char
  }

  /** The base-10 digits of a natural number, most significant first, without leading zeros. */
  function NatToDecimal(n: nat): (s: string)
    ensures 1 <= |s| && AllDigits(s)
    ensures |s| > 1 ==> s[0] != '0'
    decreases n
  {
    if n < 10 then [DigitChar(n)] else NatToDecimal(n / 10) + [DigitChar(n % 10)]
  }

  /** The rendering of an integer by the "%d" verb: a minus sign for a negative number, then its digits. */
  function IntToDecimal(n: int): (s: string)
    ensures Plain(s)
    ensures s != [] && (n < 0 <==> s[0] == '-')
  {
    var digits := NatToDecimal(if n < 0 then -n else n);
    if n < 0 then "-" + digits else digits
  }

  /** The number a string of base-10 digits stands for. */
  function DecimalValue(s: string): nat
    requires AllDigits(s)
  {
    if s == [] then 0 else 10 * DecimalValue(s[..|s| - 1]) + (s[|s| - 1] as int - '0' as int)
  }

  /** Reading back the digits of a natural number gives that number. */
  lemma {:induction false} DecimalRoundTrip(n: nat)
    ensures DecimalValue(NatToDecimal(n)) == n
    decreases n
  {
    if n >= 10 {
      DecimalRoundTrip(n / 10);
      var s := NatToDecimal(n);
      assert s[..|s| - 1] == NatToDecimal(n / 10);
    }
  }
}
