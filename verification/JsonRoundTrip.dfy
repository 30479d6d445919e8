/** Documents that are written into a text are read back, whatever stands around them. */
module JsonRoundTrip {
  import opened Options
  import opened Json
  import opened JsonGrammar
  import opened JsonAcceptance

  // ---------- what can be written anywhere ----------

  /** No zero character, which would end the text. */
  predicate Plain(t: string) {
    forall i :: 0 <= i < |t| ==> t[i] != 0 as char
  }

  /** The characters that may follow a number: white space, what follows a value, and the end of the text. */
  predicate Stop(c: char) {
    c in " \t\n\r,]}" || c == 0 as char
  }

  /** A text that strtod reads to its end as the same number wherever it stands, as long as nothing
      follows that could go on a number. */
  ghost predicate Numeral(num: Strtod, text: string, value: real) {
    && text != "" && text[0] in "0123456789-+"
    && forall s: string, p: nat {:trigger num(s, p)} ::
         HasAt(s, p, text) && Stop(At(s, p + |text|)) ==> num(s, p) == (value, p + |text|)
  }

  ghost predicate WellFormed(num: Strtod, d: Doc)
    decreases d
  {
    match d
    case DStr(chars) => Proper(chars)
    case DNum(text, value) => Numeral(num, text, value)
    case DArr(elems, inside) => White(inside) && forall e :: e in elems ==> ElemFormed(num, e)
    case DObj(members, inside) => White(inside) && forall m :: m in members ==> MemberFormed(num, m)
    case _ => true
  }

  ghost predicate ElemFormed(num: Strtod, e: Elem)
    decreases e
  {
    White(e.before) && WellFormed(num, e.doc) && White(e.after)
  }

  ghost predicate MemberFormed(num: Strtod, m: Member)
    decreases m
  {
    White(m.before) && Proper(m.key) && White(m.afterKey) && ElemFormed(num, m.value)
  }

  // ---------- strings ----------

  /** A backslash only where there has to be one. */
  function Minimal(t: string): seq<Ch> {
    if t == "" then [] else [Ch(t[0], t[0] in "\"\\")] + Minimal(t[1..])
  }

  lemma {:induction false} MinimalSpells(t: string)
    requires Plain(t)
    ensures Proper(Minimal(t)) && Letters(Minimal(t)) == t
  {
    if t != "" {
      MinimalSpells(t[1..]);
      var k := Minimal(t);
      assert k[1..] == Minimal(t[1..]);
      assert t == [t[0]] + t[1..];
    }
  }

  /** Any text without a zero character is read back from its escaped form. */
  lemma CharsRoundTrip(s: string, p: nat, t: string)
    requires Plain(t) && HasAt(s, p, Spelled(Minimal(t)) + "\"")
    ensures Chars(s, p) == Some((t, p + |Spelled(Minimal(t))| + 1))
  {
    MinimalSpells(t);
    CharsRead(s, p, Minimal(t));
  }

  // ---------- what is written stands there ----------

  /** White space, and then something that may follow a number, may itself follow a number. */
  lemma WhiteStops(s: string, p: nat, w: string)
    requires HasAt(s, p, w) && White(w) && Stop(At(s, p + |w|))
    ensures Stop(At(s, p))
  {
    if w != "" {
      HasHere(s, p, w);
    }
  }

  lemma {:induction false} WrittenStands(num: Strtod, s: string, p: nat, d: Doc)
    requires WellFormed(num, d) && HasAt(s, p, Written(d)) && Stop(At(s, p + |Written(d)|))
    ensures Stands(num, s, p, d)
    decreases d, 0
  {
    match d
    case DArr(elems, inside) => ArrayStands(num, s, p, d);
    case DObj(members, inside) => ObjectStands(num, s, p, d);
    case DNum(text, value) => assert num(s, p) == (value, p + |text|);
    case _ =>
  }

  lemma ArrayText(num: Strtod, d: Doc)
    requires d.DArr? && WellFormed(num, d)
    ensures d.elems == [] ==> White(d.inside) && Written(d) == "[" + (d.inside + "]")
    ensures d.elems != [] ==> Written(d) == "[" + (WrittenElems(d.elems) + "]")
    ensures forall e :: e in d.elems ==> ElemFormed(num, e)
  {
    hide WrittenElems, White, ElemFormed;
  }

  lemma ArrayIs(num: Strtod, s: string, p: nat, d: Doc)
    requires d.DArr? && HasAt(s, p, "[")
    requires d.elems == [] ==> White(d.inside) && HasAt(s, p + 1, d.inside + "]")
    requires d.elems != [] ==> ElemsStand(num, s, p + 1, d.elems)
    ensures Stands(num, s, p, d)
  {
    hide HasAt, White, ElemsStand;
  }

  lemma {:induction false} ArrayStands(num: Strtod, s: string, p: nat, d: Doc)
    requires d.DArr? && WellFormed(num, d) && HasAt(s, p, Written(d))
    ensures Stands(num, s, p, d)
    decreases d.elems, 2
  {
    hide HasAt, White, Stands, Written, WrittenElems, ElemsStand, ElemFormed, WellFormed;
    ArrayText(num, d);
    if d.elems == [] {
      HasConcat(s, p, "[", d.inside + "]");
    } else {
      HasConcat(s, p, "[", WrittenElems(d.elems) + "]");
      ElemsWritten(num, s, p + 1, d.elems);
    }
    ArrayIs(num, s, p, d);
  }

  lemma {:induction false} ElemWritten(num: Strtod, s: string, p: nat, e: Elem)
    requires ElemFormed(num, e) && HasAt(s, p, WrittenElem(e)) && Stop(At(s, p + |WrittenElem(e)|))
    ensures ElemStands(num, s, p, e)
    decreases e, 0
  {
    hide HasAt, White, Stands, Written, WellFormed;
    var t := Written(e.doc);
    HasConcat(s, p, e.before + t, e.after);
    HasConcat(s, p, e.before, t);
    WhiteStops(s, p + |e.before| + |t|, e.after);
    WrittenStands(num, s, p + |e.before|, e.doc);
  }

  lemma {:induction false} ElemsWritten(num: Strtod, s: string, p: nat, elems: seq<Elem>)
    requires elems != [] && (forall e :: e in elems ==> ElemFormed(num, e)) && HasAt(s, p, WrittenElems(elems) + "]")
    ensures ElemsStand(num, s, p, elems)
    decreases elems, 1
  {
    hide HasAt, WrittenElem, ElemStands, ElemFormed, At;
    var one, t := WrittenElem(elems[0]), elems[1..];
    var q := p + |one|;
    if t == [] {
      HasConcat(s, p, one, "]");
      HasHere(s, q, "]");
    } else {
      var rest := WrittenElems(t) + "]";
      assert WrittenElems(elems) + "]" == one + "," + rest;
      HasConcat(s, p, one + ",", rest);
      HasConcat(s, p, one, ",");
      HasHere(s, q, ",");
      ElemsWritten(num, s, q + 1, t);
    }
    ElemWritten(num, s, p, elems[0]);
  }

  lemma ObjectText(num: Strtod, d: Doc)
    requires d.DObj? && WellFormed(num, d)
    ensures d.members == [] ==> White(d.inside) && Written(d) == "{" + (d.inside + "}")
    ensures d.members != [] ==> Written(d) == "{" + (WrittenMembers(d.members) + "}")
    ensures forall m :: m in d.members ==> MemberFormed(num, m)
  {
    hide WrittenMembers, White, MemberFormed;
  }

  lemma ObjectIs(num: Strtod, s: string, p: nat, d: Doc)
    requires d.DObj? && HasAt(s, p, "{")
    requires d.members == [] ==> White(d.inside) && HasAt(s, p + 1, d.inside + "}")
    requires d.members != [] ==> MembersStand(num, s, p + 1, d.members)
    ensures Stands(num, s, p, d)
  {
    hide HasAt, White, MembersStand;
  }

  lemma {:induction false} ObjectStands(num: Strtod, s: string, p: nat, d: Doc)
    requires d.DObj? && WellFormed(num, d) && HasAt(s, p, Written(d))
    ensures Stands(num, s, p, d)
    decreases d.members, 2
  {
    hide HasAt, White, Stands, Written, WrittenMembers, MembersStand, MemberFormed, WellFormed;
    ObjectText(num, d);
    if d.members == [] {
      HasConcat(s, p, "{", d.inside + "}");
    } else {
      HasConcat(s, p, "{", WrittenMembers(d.members) + "}");
      MembersWritten(num, s, p + 1, d.members);
    }
    ObjectIs(num, s, p, d);
  }

  lemma {:induction false} MemberWritten(num: Strtod, s: string, p: nat, m: Member)
    requires MemberFormed(num, m) && HasAt(s, p, WrittenMember(m)) && Stop(At(s, p + |WrittenMember(m)|))
    ensures MemberStands(num, s, p, m)
    decreases m, 1
  {
    hide HasAt, White, Proper, WrittenElem, ElemStands, ElemFormed, KeyPart;
    HasConcat(s, p, KeyPart(m), WrittenElem(m.value));
    ElemWritten(num, s, p + |KeyPart(m)|, m.value);
  }

  lemma {:induction false} MembersWritten(num: Strtod, s: string, p: nat, members: seq<Member>)
    requires members != [] && (forall m :: m in members ==> MemberFormed(num, m))
    requires HasAt(s, p, WrittenMembers(members) + "}")
    ensures MembersStand(num, s, p, members)
    decreases members, 1
  {
    hide HasAt, WrittenMember, MemberStands, MemberFormed, At;
    var one, t := WrittenMember(members[0]), members[1..];
    var q := p + |one|;
    if t == [] {
      HasConcat(s, p, one, "}");
      HasHere(s, q, "}");
    } else {
      var rest := WrittenMembers(t) + "}";
      assert WrittenMembers(members) + "}" == one + "," + rest;
      HasConcat(s, p, one + ",", rest);
      HasConcat(s, p, one, ",");
      HasHere(s, q, ",");
      MembersWritten(num, s, q + 1, t);
    }
    MemberWritten(num, s, p, members[0]);
  }

  // ---------- round trips ----------

  /** The parser reads back what is written, up to its end. */
  lemma DocRoundTrip(num: Strtod, s: string, p: nat, d: Doc)
    requires Sane(num) && WellFormed(num, d)
    requires HasAt(s, p, Written(d)) && Stop(At(s, p + |Written(d)|))
    ensures ValueAt(num, s, p) == Some((Meaning(d), p + |Written(d)|))
  {
    WrittenStands(num, s, p, d);
    DocRead(num, s, p, d);
  }

  /** An array, whatever follows. */
  lemma ArrayRoundTrip(num: Strtod, s: string, p: nat, d: Doc)
    requires Sane(num) && WellFormed(num, d) && d.DArr? && HasAt(s, p, Written(d))
    ensures ArrayAt(num, s, p) == Some((Meaning(d).a, p + |Written(d)|))
  {
    ArrayStands(num, s, p, d);
    ArrayRead(num, s, p, d);
  }

  lemma ObjectRoundTrip(num: Strtod, s: string, p: nat, d: Doc)
    requires Sane(num) && WellFormed(num, d) && d.DObj? && HasAt(s, p, Written(d))
    ensures ObjectAt(num, s, p) == Some((Meaning(d).o, p + |Written(d)|))
  {
    ObjectStands(num, s, p, d);
    ObjectRead(num, s, p, d);
  }

  /** The round trip: any document, with white space before it and anything that can stand behind it,
      parses to what it means. */
  lemma ParseWritten(num: Strtod, d: Doc, before: string, after: string)
    requires Sane(num) && WellFormed(num, d) && White(before) && Stop(At(after, 0))
    ensures ValueAt(num, before + Written(d) + after, 0) == Some((Meaning(d), |before| + |Written(d)|))
  {
    hide HasAt, At, Skip, Written, WellFormed, White, Sane, Meaning, ValueAt, Stands;
    var s, t := before + Written(d) + after, Written(d);
    TextAt(before, t, after);
    WrittenStands(num, s, |before|, d);
    StandsStarts(num, s, |before|, d);
    SkipWhite(s, 0, before);
    DocRead(num, s, |before|, d);
    ValueSkip(num, s, 0);
  }

  lemma TextAt(a: string, b: string, c: string)
    ensures HasAt(a + b + c, 0, a) && HasAt(a + b + c, |a|, b) && At(a + b + c, |a| + |b|) == At(c, 0)
  {
  }
}
