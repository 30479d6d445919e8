/** Integers in documents: how they are written, and a reader that reads them. */
module JsonIntegers {
  import opened Options
  import opened Json
  import opened JsonGrammar
  import opened JsonAcceptance
  import opened JsonRoundTrip

  predicate Digit(c: char) {
    '0' <= c <= '9'
  }

  predicate AllDigits(t: string) {
    forall i :: 0 <= i < |t| ==> Digit(t[i])
  }

  function Digits(n: nat): string {
    if n < 10 then [('0' as int + n) as char] else Digits(n / 10) + [('0' as int + n % 10) as char]
  }

  function Decimal(n: int): string {
    if n < 0 then "-" + Digits(-n) else Digits(n)
  }

  /** Horner's rule. */
  function Number(t: string): nat
    requires AllDigits(t)
  {
    if t == "" then 0 else 10 * Number(t[..|t| - 1]) + (t[|t| - 1] as int - '0' as int)
  }

  function Body(t: string): string {
    if t != "" && (t[0] == '-' || t[0] == '+') then t[1..] else t
  }

  /** An integer as it may be written: digits, with a sign before them or not. */
  predicate IntegerText(t: string) {
    Body(t) != "" && AllDigits(Body(t))
  }

  function IntegerOf(t: string): int
    requires IntegerText(t)
  {
    var n: int := Number(Body(t));
    if t[0] == '-' then -n else n
  }

  /** Integers that a double represents exactly. */
  predicate Exact(n: int) {
    -0x20_0000_0000_0000 <= n <= 0x20_0000_0000_0000
  }

  /** What is used of strtod: it reads integers. */
  ghost predicate ReadsIntegers(num: Strtod) {
    Sane(num) &&
    forall t: string, s: string, p: nat {:trigger num(s, p), IntegerText(t)} ::
      IntegerText(t) && Exact(IntegerOf(t)) && HasAt(s, p, t) && Stop(At(s, p + |t|)) ==>
        num(s, p) == (IntegerOf(t) as real, p + |t|)
  }

  // ---------- a reader ----------

  /** The end of the longest run of digits. */
  function RunEnd(s: string, p: nat): (q: nat)
    ensures p <= q && (p <= |s| ==> q <= |s|)
    decreases |s| - p
  {
    if Digit(At(s, p)) then RunEnd(s, p + 1) else p
  }

  lemma {:induction false} RunIsDigits(s: string, p: nat)
    requires p <= |s|
    ensures AllDigits(s[p..RunEnd(s, p)])
    decreases |s| - p
  {
    if Digit(At(s, p)) {
      RunIsDigits(s, p + 1);
      assert s[p..RunEnd(s, p)] == [s[p]] + s[p + 1..RunEnd(s, p)];
    }
  }

  /** An optional sign and the longest run of digits; nothing is read if there is no digit. */
  function ReadDecimal(s: string, p: nat): (real, nat) {
    var start := if At(s, p) == '-' || At(s, p) == '+' then p + 1 else p;
    var end := RunEnd(s, start);
    if end == start then (0.0, p)
    else
      RunIsDigits(s, start);
      var n := Number(s[start..end]);
      (if At(s, p) == '-' then -(n as real) else n as real, end)
  }

  /** A number has a decimal writing, without zeros at its front. */
  lemma {:induction false} DigitsRead(n: nat)
    ensures Digits(n) != "" && AllDigits(Digits(n)) && Number(Digits(n)) == n
    ensures n > 0 ==> Digits(n)[0] != '0'
  {
    if n >= 10 {
      DigitsRead(n / 10);
      var c := ('0' as int + n % 10) as char;
      assert Digits(n)[..|Digits(n)| - 1] == Digits(n / 10);
      assert Digits(n)[|Digits(n)| - 1] == c;
    }
  }

  lemma DecimalIsInteger(n: int)
    ensures IntegerText(Decimal(n)) && IntegerOf(Decimal(n)) == n
  {
    DigitsRead(if n < 0 then -n else n);
    hide Digits, Number;
    if n < 0 {
      assert Body(Decimal(n)) == Digits(-n);
    }
  }

  lemma {:induction false} RunOver(s: string, p: nat, t: string)
    requires HasAt(s, p, t) && AllDigits(t) && !Digit(At(s, p + |t|))
    ensures RunEnd(s, p) == p + |t|
    decreases |t|
  {
    if t != "" {
      HasHere(s, p, t);
      RunOver(s, p + 1, t[1..]);
    }
  }

  /** Wherever it stands, an integer is read, whatever follows unless it is a digit. */
  lemma IntegerRead(s: string, p: nat, t: string)
    requires IntegerText(t) && HasAt(s, p, t) && !Digit(At(s, p + |t|))
    ensures ReadDecimal(s, p) == (IntegerOf(t) as real, p + |t|)
  {
    hide Number;
    HasHere(s, p, t);
    var start := if t == Body(t) then p else p + 1;
    assert HasAt(s, start, Body(t));
    RunOver(s, start, Body(t));
  }

  /** So every integer is read back from its decimal writing. */
  lemma DecimalRead(s: string, p: nat, n: int)
    requires HasAt(s, p, Decimal(n)) && !Digit(At(s, p + |Decimal(n)|))
    ensures ReadDecimal(s, p) == (n as real, p + |Decimal(n)|)
  {
    hide ReadDecimal, Decimal, IntegerText, IntegerOf, HasAt;
    DecimalIsInteger(n);
    IntegerRead(s, p, Decimal(n));
  }

  /** And there is a function with the property that is asked of strtod. */
  lemma ReaderReads()
    ensures ReadsIntegers(ReadDecimal)
  {
    hide IntegerOf, IntegerText, HasAt, RunEnd, Exact;
    forall t: string, s: string, p: nat {:trigger ReadDecimal(s, p), IntegerText(t)} |
      IntegerText(t) && HasAt(s, p, t) && Stop(At(s, p + |t|))
      ensures ReadDecimal(s, p) == (IntegerOf(t) as real, p + |t|)
    {
      IntegerRead(s, p, t);
    }
  }

  // ---------- documents whose numbers are integers ----------

  predicate IntegerDoc(d: Doc)
    decreases d
  {
    match d
    case DStr(chars) => Proper(chars)
    case DNum(text, value) => IntegerText(text) && Exact(IntegerOf(text)) && value == IntegerOf(text) as real
    case DArr(elems, inside) => White(inside) && forall e :: e in elems ==> IntegerElem(e)
    case DObj(members, inside) => White(inside) && forall m :: m in members ==> IntegerMember(m)
    case _ => true
  }

  predicate IntegerElem(e: Elem)
    decreases e
  {
    White(e.before) && IntegerDoc(e.doc) && White(e.after)
  }

  predicate IntegerMember(m: Member)
    decreases m
  {
    White(m.before) && Proper(m.key) && White(m.afterKey) && IntegerElem(m.value)
  }

  lemma IntegersAreNumerals(num: Strtod, t: string)
    requires ReadsIntegers(num) && IntegerText(t) && Exact(IntegerOf(t))
    ensures WellFormed(num, DNum(t, IntegerOf(t) as real))
  {
    assert t != "" && t[0] in "0123456789-+";
    hide At, HasAt, Stop, Exact, IntegerOf, IntegerText;
    forall s: string, p: nat {:trigger num(s, p)} | HasAt(s, p, t) && Stop(At(s, p + |t|))
      ensures num(s, p) == (IntegerOf(t) as real, p + |t|)
    {
    }
  }

  lemma {:induction false} IntegerDocFormed(num: Strtod, d: Doc)
    requires ReadsIntegers(num) && IntegerDoc(d)
    ensures WellFormed(num, d)
    decreases d
  {
    hide ReadsIntegers, Proper, White, IntegerText, IntegerOf, Exact;
    match d
    case DNum(text, _) => IntegersAreNumerals(num, text);
    case DArr(elems, _) =>
      forall e | e in elems ensures ElemFormed(num, e) {
        IntegerDocFormed(num, e.doc);
      }
    case DObj(members, _) =>
      forall m | m in members ensures MemberFormed(num, m) {
        assert IntegerMember(m) && IntegerElem(m.value);
        IntegerDocFormed(num, m.value.doc);
        assert ElemFormed(num, m.value);
      }
    case _ =>
  }

  /** The round trip with nothing assumed of the reader of numbers: any document whose numbers are integers
      parses to what it means. */
  lemma ParseIntegers(d: Doc, before: string, after: string)
    requires IntegerDoc(d) && White(before) && Stop(At(after, 0))
    ensures Sane(ReadDecimal)
    ensures ValueAt(ReadDecimal, before + Written(d) + after, 0) == Some((Meaning(d), |before| + |Written(d)|))
  {
    hide ReadDecimal, IntegerDoc, WellFormed, ValueAt, Written, Meaning;
    ReaderReads();
    IntegerDocFormed(ReadDecimal, d);
    ParseWritten(ReadDecimal, d, before, after);
  }
}
