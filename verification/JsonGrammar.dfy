/** What the parser accepts: documents as they may be spelled, and where they stand in a text. */
module JsonGrammar {
  import opened Options
  import opened Json

  /** A character of a string, and whether a backslash stands before it. */
  datatype Ch = Ch(c: char, escaped: bool)

  /** A document with its white space. Objects and arrays without elements have some inside. */
  datatype Doc =
    | DNull
    | DTrue
    | DFalse
    | DStr(chars: seq<Ch>)
    | DNum(text: string, value: real)
    | DArr(elems: seq<Elem>, inside: string)
    | DObj(members: seq<Member>, inside: string)

  datatype Elem = Elem(before: string, doc: Doc, after: string)

  datatype Member = Member(before: string, key: seq<Ch>, afterKey: string, value: Elem)

  /** White space as section 2 of RFC 8259 names it: space, tab, line feed, carriage return. */
  predicate White(w: string) {
    forall i :: 0 <= i < |w| ==> w[i] in " \t\n\r"
  }

  /** Any character but zero, which ends the text; a quote or a backslash only behind a backslash. */
  predicate Proper(k: seq<Ch>) {
    forall i :: 0 <= i < |k| ==> k[i].c != 0 as char && (k[i].c in "\"\\" ==> k[i].escaped)
  }

  // ---------- writing ----------

  function Spelled(k: seq<Ch>): string {
    if k == [] then "" else OneSpelled(k[0]) + Spelled(k[1..])
  }

  function OneSpelled(x: Ch): (t: string)
    ensures t != ""
  {
    if x.escaped then ['\\', x.c] else [x.c]
  }

  function Letters(k: seq<Ch>): string {
    if k == [] then "" else [k[0].c] + Letters(k[1..])
  }

  function Quoted(k: seq<Ch>): string {
    "\"" + Spelled(k) + "\""
  }

  function Written(d: Doc): (t: string)
    decreases d, 0
  {
    match d
    case DNull => "null"
    case DTrue => "true"
    case DFalse => "false"
    case DStr(chars) => Quoted(chars)
    case DNum(text, _) => text
    case DArr(elems, inside) => "[" + (if elems == [] then inside else WrittenElems(elems)) + "]"
    case DObj(members, inside) => "{" + (if members == [] then inside else WrittenMembers(members)) + "}"
  }

  function WrittenElem(e: Elem): string
    decreases e, 0
  {
    e.before + Written(e.doc) + e.after
  }

  function WrittenElems(elems: seq<Elem>): string
    requires elems != []
    decreases elems, 1
  {
    var one := WrittenElem(elems[0]);
    if |elems| == 1 then one else one + "," + WrittenElems(elems[1..])
  }

  function KeyPart(m: Member): string {
    m.before + Quoted(m.key) + m.afterKey + ":"
  }

  function WrittenMember(m: Member): string
    decreases m, 0
  {
    KeyPart(m) + WrittenElem(m.value)
  }

  function WrittenMembers(members: seq<Member>): string
    requires members != []
    decreases members, 1
  {
    var one := WrittenMember(members[0]);
    if |members| == 1 then one else one + "," + WrittenMembers(members[1..])
  }

  // ---------- meaning ----------

  /** The words null, true and false all mean nothing to a band plan. */
  function Meaning(d: Doc): Value
    decreases d, 0
  {
    match d
    case DNull => Nil
    case DTrue => Nil
    case DFalse => Nil
    case DStr(chars) => Str(Letters(chars))
    case DNum(_, value) => Num(value)
    case DArr(elems, _) => Arr(ElemMeanings(elems))
    case DObj(members, _) => Obj(MemberMeanings(members, map[]))
  }

  function ElemMeanings(elems: seq<Elem>): seq<Value>
    decreases elems, 1
  {
    if elems == [] then [] else [Meaning(elems[0].doc)] + ElemMeanings(elems[1..])
  }

  /** A key that comes again takes the later value. */
  function MemberMeanings(members: seq<Member>, before: map<string, Value>): map<string, Value>
    decreases members, 1
  {
    if members == [] then before
    else MemberMeanings(members[1..], before[Letters(members[0].key) := Meaning(members[0].value.doc)])
  }

  // ---------- standing in a text ----------

  /** The document stands at position p of the text, and its numbers are what is read there. */
  ghost predicate Stands(num: Strtod, s: string, p: nat, d: Doc)
    decreases d, 0
  {
    match d
    case DNull => HasAt(s, p, "null")
    case DTrue => HasAt(s, p, "true")
    case DFalse => HasAt(s, p, "false")
    case DStr(chars) => Proper(chars) && HasAt(s, p, Quoted(chars))
    case DNum(text, value) =>
      text != "" && text[0] in "0123456789-+" && HasAt(s, p, text) && num(s, p) == (value, p + |text|)
    case DArr(elems, inside) =>
      HasAt(s, p, "[") &&
      if elems == [] then White(inside) && HasAt(s, p + 1, inside + "]") else ElemsStand(num, s, p + 1, elems)
    case DObj(members, inside) =>
      HasAt(s, p, "{") &&
      if members == [] then White(inside) && HasAt(s, p + 1, inside + "}") else MembersStand(num, s, p + 1, members)
  }

  ghost predicate ElemStands(num: Strtod, s: string, p: nat, e: Elem)
    decreases e, 0
  {
    && White(e.before) && White(e.after) && HasAt(s, p, e.before)
    && Stands(num, s, p + |e.before|, e.doc)
    && HasAt(s, p + |e.before| + |Written(e.doc)|, e.after)
  }

  /** Elements with commas between them, and a bracket at the end. */
  ghost predicate ElemsStand(num: Strtod, s: string, p: nat, elems: seq<Elem>)
    requires elems != []
    decreases elems, 1
  {
    && ElemStands(num, s, p, elems[0])
    && var q := p + |WrittenElem(elems[0])|;
       if |elems| == 1 then HasAt(s, q, "]") else HasAt(s, q, ",") && ElemsStand(num, s, q + 1, elems[1..])
  }

  ghost predicate KeyStands(s: string, p: nat, m: Member) {
    White(m.before) && Proper(m.key) && White(m.afterKey) && HasAt(s, p, KeyPart(m))
  }

  ghost predicate MemberStands(num: Strtod, s: string, p: nat, m: Member)
    decreases m, 1
  {
    KeyStands(s, p, m) && ElemStands(num, s, p + |KeyPart(m)|, m.value)
  }

  ghost predicate MembersStand(num: Strtod, s: string, p: nat, members: seq<Member>)
    requires members != []
    decreases members, 1
  {
    && MemberStands(num, s, p, members[0])
    && var q := p + |WrittenMember(members[0])|;
       if |members| == 1 then HasAt(s, q, "}") else HasAt(s, q, ",") && MembersStand(num, s, q + 1, members[1..])
  }
}
