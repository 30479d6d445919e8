/** The parser accepts exactly the documents of the grammar, and gives what they mean. */
module JsonAcceptance {
  import opened Options
  import opened Json
  import opened JsonGrammar

  // ---------- text at a position ----------

  lemma HasConcat(s: string, p: nat, a: string, b: string)
    ensures HasAt(s, p, a + b) <==> HasAt(s, p, a) && HasAt(s, p + |a|, b)
  {
    var n := |a + b|;
    if HasAt(s, p, a + b) {
      assert (a + b)[..|a|] == a && (a + b)[|a|..] == b;
      assert s[p..p + |a|] == s[p..p + n][..|a|];
      assert s[p + |a|..p + n] == s[p..p + n][|a|..];
    }
    if HasAt(s, p, a) && HasAt(s, p + |a|, b) {
      assert s[p..p + n] == s[p..p + |a|] + s[p + |a|..p + n];
    }
  }

  lemma HasHere(s: string, p: nat, a: string)
    requires HasAt(s, p, a) && a != ""
    ensures p < |s| && At(s, p) == s[p] == a[0] && HasAt(s, p + 1, a[1..])
  {
    assert a == [a[0]] + a[1..];
    HasConcat(s, p, [a[0]], a[1..]);
    assert s[p..p + 1][0] == a[0];
  }

  lemma HasOne(s: string, p: nat, c: char)
    ensures HasAt(s, p, [c]) <==> p < |s| && s[p] == c
  {
    if p < |s| {
      assert s[p..p + 1] == [s[p]];
    }
  }

  lemma HasIt(s: string, p: nat, q: nat)
    requires p <= q <= |s|
    ensures HasAt(s, p, s[p..q])
  {
  }

  lemma {:induction false} SkipWhite(s: string, p: nat, w: string)
    requires HasAt(s, p, w) && White(w) && At(s, p + |w|) !in " \t\n\r"
    ensures Skip(s, p) == p + |w|
    decreases |w|
  {
    if w != "" {
      HasHere(s, p, w);
      assert Blank(At(s, p)) by { assert w[0] in " \t\n\r"; }
      SkipWhite(s, p + 1, w[1..]);
    }
  }

  lemma SkipNone(s: string, p: nat)
    requires p <= |s| && At(s, p) !in " \t\n\r"
    ensures Skip(s, p) == p
  {
    assert HasAt(s, p, "");
    SkipWhite(s, p, "");
  }

  /** What is skipped is white space. */
  lemma Skipped(s: string, p: nat) returns (w: string)
    requires p <= |s|
    ensures White(w) && HasAt(s, p, w) && Skip(s, p) == p + |w|
  {
    SkipEnds(s, p);
    w := s[p..Skip(s, p)];
  }

  lemma SkipTwice(s: string, p: nat)
    requires p <= |s|
    ensures Skip(s, Skip(s, p)) == Skip(s, p)
  {
    SkipEnds(s, p);
    SkipNone(s, Skip(s, p));
  }

  // ---------- strings ----------

  lemma CharsStep(s: string, p: nat, x: Ch)
    requires HasAt(s, p, OneSpelled(x)) && Proper([x])
    ensures Chars(s, p) == Behind([x.c], Chars(s, p + |OneSpelled(x)|))
  {
    assert x == [x][0];
    HasHere(s, p, OneSpelled(x));
    if x.escaped {
      HasHere(s, p + 1, OneSpelled(x)[1..]);
    }
  }

  lemma CharsEnd(s: string, p: nat)
    requires HasAt(s, p, "\"")
    ensures Chars(s, p) == Some(("", p + 1))
  {
    HasHere(s, p, "\"");
  }

  lemma ProperRest(k: seq<Ch>)
    requires Proper(k) && k != []
    ensures Proper([k[0]]) && Proper(k[1..])
  {
  }

  lemma {:induction false} CharsRead(s: string, p: nat, k: seq<Ch>)
    requires Proper(k) && HasAt(s, p, Spelled(k) + "\"")
    ensures Chars(s, p) == Some((Letters(k), p + |Spelled(k)| + 1))
    decreases |k|
  {
    hide HasAt, Chars, OneSpelled, Proper;
    if k == [] {
      assert Spelled(k) + "\"" == "\"";
      CharsEnd(s, p);
    } else {
      var a, b := OneSpelled(k[0]), Spelled(k[1..]) + "\"";
      assert Spelled(k) + "\"" == a + b;
      HasConcat(s, p, a, b);
      ProperRest(k);
      CharsStep(s, p, k[0]);
      CharsRead(s, p + |a|, k[1..]);
    }
  }

  lemma StringRead(s: string, p: nat, k: seq<Ch>)
    requires Proper(k) && HasAt(s, p, Quoted(k))
    ensures StringAt(s, p) == Some((Letters(k), p + |Quoted(k)|)) && At(s, p) == '"'
  {
    hide Chars;
    assert Quoted(k) == "\"" + (Spelled(k) + "\"");
    HasConcat(s, p, "\"", Spelled(k) + "\"");
    HasHere(s, p, "\"");
    CharsRead(s, p + 1, k);
  }

  /** Whatever is accepted as a string is the spelling of one. */
  lemma {:induction false} CharsParsed(s: string, p: nat) returns (k: seq<Ch>)
    requires p <= |s| && Chars(s, p).Some?
    ensures Proper(k) && HasAt(s, p, Spelled(k) + "\"")
    ensures Chars(s, p).value == (Letters(k), p + |Spelled(k)| + 1)
    decreases |s| - p
  {
    hide HasAt, OneSpelled, Proper;
    if s[p] == '"' {
      k := [];
      NoneProper();
      HasOne(s, p, '"');
      assert Spelled(k) + "\"" == "\"";
    } else {
      var x := if s[p] == '\\' then Ch(s[p + 1], true) else Ch(s[p], false);
      OneParsed(s, p, x);
      CharsStep(s, p, x);
      var t := CharsParsed(s, p + |OneSpelled(x)|);
      hide Chars;
      k := [x] + t;
      assert k[1..] == t;
      HasConcat(s, p, OneSpelled(x), Spelled(t) + "\"");
      assert Spelled(k) + "\"" == OneSpelled(x) + (Spelled(t) + "\"");
      ProperMore(x, t);
    }
  }

  lemma NoneProper()
    ensures Proper([])
  {
  }

  lemma ProperMore(x: Ch, t: seq<Ch>)
    requires Proper([x]) && Proper(t)
    ensures Proper([x] + t)
  {
    assert [x][0] == x;
  }

  lemma OneParsed(s: string, p: nat, x: Ch)
    requires p < |s| && s[p] != ZERO && s[p] != '"'
    requires if s[p] == '\\' then p + 1 < |s| && s[p + 1] != ZERO && x == Ch(s[p + 1], true) else x == Ch(s[p], false)
    ensures HasAt(s, p, OneSpelled(x)) && Proper([x])
  {
    if x.escaped {
      assert s[p..p + 2] == ['\\', x.c];
    } else {
      HasOne(s, p, x.c);
    }
  }

  lemma StringParsed(s: string, p: nat) returns (k: seq<Ch>)
    requires p <= |s| && StringAt(s, p).Some?
    ensures Proper(k) && HasAt(s, p, Quoted(k)) && StringAt(s, p).value == (Letters(k), p + |Quoted(k)|)
  {
    HasOne(s, p, '"');
    k := CharsParsed(s, p + 1);
    assert Quoted(k) == "\"" + (Spelled(k) + "\"");
    HasConcat(s, p, "\"", Spelled(k) + "\"");
  }

  // ---------- what stands in the text is its writing ----------

  /** What an array is made of, and how it is written. */
  lemma ArrayParts(num: Strtod, s: string, p: nat, d: Doc)
    requires d.DArr? && Stands(num, s, p, d)
    ensures HasAt(s, p, "[")
    ensures d.elems == [] ==>
              White(d.inside) && HasAt(s, p + 1, d.inside + "]") && Written(d) == "[" + (d.inside + "]")
    ensures d.elems != [] ==>
              ElemsStand(num, s, p + 1, d.elems) && Written(d) == "[" + (WrittenElems(d.elems) + "]")
  {
    hide HasAt, White, ElemsStand, WrittenElems;
  }

  lemma ObjectParts(num: Strtod, s: string, p: nat, d: Doc)
    requires d.DObj? && Stands(num, s, p, d)
    ensures HasAt(s, p, "{")
    ensures d.members == [] ==>
              White(d.inside) && HasAt(s, p + 1, d.inside + "}") && Written(d) == "{" + (d.inside + "}")
    ensures d.members != [] ==>
              MembersStand(num, s, p + 1, d.members) && Written(d) == "{" + (WrittenMembers(d.members) + "}")
  {
    hide HasAt, White, MembersStand, WrittenMembers;
  }

  lemma {:induction false} StandsIsWritten(num: Strtod, s: string, p: nat, d: Doc)
    requires Stands(num, s, p, d)
    ensures HasAt(s, p, Written(d))
    decreases d, 0
  {
    match d
    case DArr(elems, inside) => ArrayIsWritten(num, s, p, d);
    case DObj(members, inside) => ObjectIsWritten(num, s, p, d);
    case _ =>
  }

  lemma {:induction false} ArrayIsWritten(num: Strtod, s: string, p: nat, d: Doc)
    requires d.DArr? && Stands(num, s, p, d)
    ensures HasAt(s, p, Written(d))
    decreases d.elems, 2
  {
    hide HasAt, White, Stands, Written, ElemsStand, WrittenElems;
    ArrayParts(num, s, p, d);
    if d.elems == [] {
      HasConcat(s, p, "[", d.inside + "]");
    } else {
      ElemsAreWritten(num, s, p + 1, d.elems);
      HasConcat(s, p, "[", WrittenElems(d.elems) + "]");
    }
  }

  lemma {:induction false} ObjectIsWritten(num: Strtod, s: string, p: nat, d: Doc)
    requires d.DObj? && Stands(num, s, p, d)
    ensures HasAt(s, p, Written(d))
    decreases d.members, 2
  {
    hide HasAt, White, Stands, Written, MembersStand, WrittenMembers;
    ObjectParts(num, s, p, d);
    if d.members == [] {
      HasConcat(s, p, "{", d.inside + "}");
    } else {
      MembersAreWritten(num, s, p + 1, d.members);
      HasConcat(s, p, "{", WrittenMembers(d.members) + "}");
    }
  }

  lemma {:induction false} ElemIsWritten(num: Strtod, s: string, p: nat, e: Elem)
    requires ElemStands(num, s, p, e)
    ensures HasAt(s, p, WrittenElem(e))
    decreases e, 0
  {
    hide HasAt, Written, Stands;
    StandsIsWritten(num, s, p + |e.before|, e.doc);
    HasConcat(s, p, e.before, Written(e.doc));
    HasConcat(s, p, e.before + Written(e.doc), e.after);
  }

  lemma {:induction false} ElemsAreWritten(num: Strtod, s: string, p: nat, elems: seq<Elem>)
    requires elems != [] && ElemsStand(num, s, p, elems)
    ensures HasAt(s, p, WrittenElems(elems) + "]")
    decreases elems, 1
  {
    hide HasAt, WrittenElem, ElemStands;
    var one := WrittenElem(elems[0]);
    ElemIsWritten(num, s, p, elems[0]);
    if |elems| == 1 {
      HasConcat(s, p, one, "]");
    } else {
      var rest := WrittenElems(elems[1..]) + "]";
      ElemsAreWritten(num, s, p + |one| + 1, elems[1..]);
      HasConcat(s, p, one, ",");
      HasConcat(s, p, one + ",", rest);
      assert WrittenElems(elems) + "]" == one + "," + rest;
    }
  }

  lemma {:induction false} MemberIsWritten(num: Strtod, s: string, p: nat, m: Member)
    requires MemberStands(num, s, p, m)
    ensures HasAt(s, p, WrittenMember(m))
    decreases m, 1
  {
    hide HasAt, WrittenElem, ElemStands, KeyPart;
    ElemIsWritten(num, s, p + |KeyPart(m)|, m.value);
    HasConcat(s, p, KeyPart(m), WrittenElem(m.value));
  }

  lemma {:induction false} MembersAreWritten(num: Strtod, s: string, p: nat, members: seq<Member>)
    requires members != [] && MembersStand(num, s, p, members)
    ensures HasAt(s, p, WrittenMembers(members) + "}")
    decreases members, 1
  {
    hide HasAt, WrittenMember, MemberStands;
    var one := WrittenMember(members[0]);
    MemberIsWritten(num, s, p, members[0]);
    if |members| == 1 {
      HasConcat(s, p, one, "}");
    } else {
      var rest := WrittenMembers(members[1..]) + "}";
      MembersAreWritten(num, s, p + |one| + 1, members[1..]);
      HasConcat(s, p, one, ",");
      HasConcat(s, p, one + ",", rest);
      assert WrittenMembers(members) + "}" == one + "," + rest;
    }
  }

  // ---------- documents are read ----------

  /** How the writing of a document starts, by which the parser knows what to expect. */
  predicate Starts(d: Doc, c: char) {
    match d
    case DNull => c == 'n'
    case DTrue => c == 't'
    case DFalse => c == 'f'
    case DStr(_) => c == '"'
    case DNum(_, _) => c in "0123456789-+"
    case DArr(_, _) => c == '['
    case DObj(_, _) => c == '{'
  }

  lemma StandsStarts(num: Strtod, s: string, p: nat, d: Doc)
    requires Stands(num, s, p, d)
    ensures p < |s| && Starts(d, At(s, p)) && At(s, p) !in " \t\n\r]}"
    ensures Skip(s, p) == p && p + |Written(d)| <= |s|
  {
    StandsIsWritten(num, s, p, d);
    FirstChar(num, s, p, d);
    hide HasAt, Stands, Written;
    SkipNone(s, p);
  }

  lemma FirstChar(num: Strtod, s: string, p: nat, d: Doc)
    requires Stands(num, s, p, d)
    ensures p < |s| && Starts(d, At(s, p)) && At(s, p) !in " \t\n\r]}"
  {
    hide HasAt, White, Proper, ElemsStand, MembersStand, Spelled;
    match d
    case DNull => HasHere(s, p, "null");
    case DTrue => HasHere(s, p, "true");
    case DFalse => HasHere(s, p, "false");
    case DStr(chars) => HasHere(s, p, Quoted(chars));
    case DNum(text, value) => HasHere(s, p, text);
    case DArr(elems, inside) => HasHere(s, p, "[");
    case DObj(members, inside) => HasHere(s, p, "{");
  }

  /** What a value is, by its first character. */
  lemma ValueOfText(num: Strtod, s: string, p: nat)
    requires Sane(num) && p <= |s|
    ensures var q := Skip(s, p);
            var c, v := At(s, q), ValueAt(num, s, p);
            && (c == '"' ==> v == var r := StringAt(s, q); if r.None? then None else Some((Str(r.value.0), r.value.1)))
            && (c == '{' ==>
                  v == var r := ObjectAt(num, s, q); if r.None? then None else Some((Obj(r.value.0), r.value.1)))
            && (c == '[' ==>
                  v == var r := ArrayAt(num, s, q); if r.None? then None else Some((Arr(r.value.0), r.value.1)))
            && (c in "0123456789-+" ==>
                  v == var r := num(s, q); if r.1 > q then Some((Num(r.0), r.1)) else None)
  {
    hide StringAt, ObjectAt, ArrayAt, Sane;
  }

  lemma ValueOfWord(num: Strtod, s: string, p: nat)
    requires Sane(num) && p <= |s|
    ensures var q := Skip(s, p);
            At(s, q) !in "\"{[0123456789-+" ==>
              ValueAt(num, s, p) == if HasAt(s, q, "null") then Some((Nil, q + 4))
                                    else if HasAt(s, q, "true") then Some((Nil, q + 4))
                                    else if HasAt(s, q, "false") then Some((Nil, q + 5))
                                    else None
  {
    hide StringAt, ObjectAt, ArrayAt, Sane, HasAt;
  }

  /** A document is read up to its end, and gives what it means. */
  lemma {:induction false} DocRead(num: Strtod, s: string, p: nat, d: Doc)
    requires Sane(num) && Stands(num, s, p, d)
    ensures ValueAt(num, s, p) == Some((Meaning(d), p + |Written(d)|))
    decreases d, 0
  {
    hide ValueAt, StringAt, ObjectAt, ArrayAt, Sane, HasAt, Skip, Proper, Quoted, Letters, White;
    StandsStarts(num, s, p, d);
    ValueOfText(num, s, p);
    ValueOfWord(num, s, p);
    match d
    case DNull =>
    case DTrue => NotHere(s, p, "null");
    case DFalse => NotHere(s, p, "null"); NotHere(s, p, "true");
    case DStr(chars) => StringRead(s, p, chars);
    case DNum(text, value) =>
    case DArr(elems, inside) => ArrayRead(num, s, p, d);
    case DObj(members, inside) => ObjectRead(num, s, p, d);
  }

  lemma NotHere(s: string, p: nat, text: string)
    requires text != "" && At(s, p) != text[0]
    ensures !HasAt(s, p, text)
  {
    FirstOf(s, p, text);
  }

  lemma EmptyRead(s: string, p: nat, inside: string, end: char)
    requires White(inside) && end !in " \t\n\r" && HasAt(s, p, inside + [end])
    ensures Skip(s, p) == p + |inside| && At(s, p + |inside|) == end
  {
    HasConcat(s, p, inside, [end]);
    HasHere(s, p + |inside|, [end]);
    SkipWhite(s, p, inside);
  }

  lemma ArrayOpens(num: Strtod, s: string, p: nat)
    requires Sane(num) && p < |s| && s[p] == '['
    ensures var first := Skip(s, p + 1);
            ArrayAt(num, s, p) == if At(s, first) == ']' then Some(([], first + 1)) else Elements(num, s, p + 1, [])
  {
    hide Elements;
    SkipNone(s, p);
    ElementsSkip(num, s, p + 1, []);
  }

  lemma {:induction false} ArrayRead(num: Strtod, s: string, p: nat, d: Doc)
    requires Sane(num) && d.DArr? && Stands(num, s, p, d)
    ensures ArrayAt(num, s, p) == Some((ElemMeanings(d.elems), p + |Written(d)|))
    decreases d.elems, 2
  {
    hide HasAt, White, Sane, Elements, ElemsStand, WrittenElems, ElemMeanings, Stands, Written, ArrayAt, Skip;
    ArrayParts(num, s, p, d);
    HasHere(s, p, "[");
    ArrayOpens(num, s, p);
    if d.elems == [] {
      NoMeanings();
      EmptyRead(s, p + 1, d.inside, ']');
    } else {
      ElemsRead(num, s, p + 1, d.elems, []);
      assert [] + ElemMeanings(d.elems) == ElemMeanings(d.elems);
    }
  }

  lemma NoMeanings()
    ensures ElemMeanings([]) == []
  {
  }

  lemma ElementsSkip(num: Strtod, s: string, p: nat, before: seq<Value>)
    requires Sane(num) && p <= |s|
    ensures Elements(num, s, Skip(s, p), before) == Elements(num, s, p, before)
  {
    SkipTwice(s, p);
  }

  /** White space, a document, white space, and a character that is none. */
  lemma {:induction false} ElemRead(num: Strtod, s: string, p: nat, e: Elem)
    requires Sane(num) && ElemStands(num, s, p, e) && At(s, p + |WrittenElem(e)|) !in " \t\n\r"
    ensures Skip(s, p) == p + |e.before| && At(s, Skip(s, p)) !in "]}"
    ensures var v := ValueAt(num, s, Skip(s, p));
            v == Some((Meaning(e.doc), p + |e.before| + |Written(e.doc)|)) && Skip(s, v.value.1) == p + |WrittenElem(e)|
    decreases e, 0
  {
    hide HasAt, White, Sane, ValueAt, Stands, Written, Meaning;
    var start, end := p + |e.before|, p + |e.before| + |Written(e.doc)|;
    StandsStarts(num, s, start, e.doc);
    SkipWhite(s, p, e.before);
    DocRead(num, s, start, e.doc);
    SkipWhite(s, end, e.after);
  }

  lemma ElementsStep(num: Strtod, s: string, p: nat, before: seq<Value>, v: Value, end: nat)
    requires Sane(num) && p <= |s| && ValueAt(num, s, Skip(s, p)) == Some((v, end))
    ensures var q := Skip(s, end);
            && (At(s, q) == ']' ==> Elements(num, s, p, before) == Some((before + [v], q + 1)))
            && (At(s, q) == ',' ==> Elements(num, s, p, before) == Elements(num, s, q + 1, before + [v]))
            && (Elements(num, s, p, before).Some? ==> At(s, q) == ']' || At(s, q) == ',')
  {
    hide ValueAt;
  }

  lemma {:induction false} ElemsRead(num: Strtod, s: string, p: nat, elems: seq<Elem>, before: seq<Value>)
    requires Sane(num) && elems != [] && ElemsStand(num, s, p, elems)
    ensures Elements(num, s, p, before) == Some((before + ElemMeanings(elems), p + |WrittenElems(elems)| + 1))
    ensures p <= |s| && At(s, Skip(s, p)) != ']'
    decreases elems, 1
  {
    hide HasAt, Sane, ValueAt, Elements, ElemStands, ElemsStand, WrittenElem, WrittenElems, Meaning, ElemMeanings, Skip;
    var e, t := elems[0], elems[1..];
    var q := p + |WrittenElem(e)|;
    ElemsParts(num, s, p, elems);
    HasOne(s, q, if t == [] then ']' else ',');
    ElemRead(num, s, p, e);
    ElementsStep(num, s, p, before, Meaning(e.doc), p + |e.before| + |Written(e.doc)|);
    NoMeanings();
    if t != [] {
      ElemsRead(num, s, q + 1, t, before + [Meaning(e.doc)]);
    }
    assert before + [Meaning(e.doc)] + ElemMeanings(t) == before + ([Meaning(e.doc)] + ElemMeanings(t));
    assert before + [Meaning(e.doc)] + [] == before + [Meaning(e.doc)];
  }

  lemma ElemsParts(num: Strtod, s: string, p: nat, elems: seq<Elem>)
    requires elems != [] && ElemsStand(num, s, p, elems)
    ensures var e, t := elems[0], elems[1..];
            var q := p + |WrittenElem(e)|;
            && ElemStands(num, s, p, e) && ElemMeanings(elems) == [Meaning(e.doc)] + ElemMeanings(t)
            && (if t == [] then HasAt(s, q, "]") else HasAt(s, q, ",") && ElemsStand(num, s, q + 1, t))
            && |WrittenElems(elems)| == |WrittenElem(e)| + if t == [] then 0 else 1 + |WrittenElems(t)|
  {
    hide HasAt, ElemStands, WrittenElem, Meaning;
  }

  lemma ObjectOpens(num: Strtod, s: string, p: nat)
    requires Sane(num) && p < |s| && s[p] == '{'
    ensures var first := Skip(s, p + 1);
            ObjectAt(num, s, p)
              == if At(s, first) == '}' then Some((map[], first + 1)) else Members(num, s, p + 1, map[])
  {
    hide Members;
    SkipNone(s, p);
    MembersSkip(num, s, p + 1, map[]);
  }

  lemma {:induction false} ObjectRead(num: Strtod, s: string, p: nat, d: Doc)
    requires Sane(num) && d.DObj? && Stands(num, s, p, d)
    ensures ObjectAt(num, s, p) == Some((MemberMeanings(d.members, map[]), p + |Written(d)|))
    decreases d.members, 2
  {
    hide HasAt, White, Sane, Members, MembersStand, WrittenMembers, MemberMeanings, Stands, Written, ObjectAt, Skip;
    ObjectParts(num, s, p, d);
    HasHere(s, p, "{");
    ObjectOpens(num, s, p);
    if d.members == [] {
      NoMembers(map[]);
      EmptyRead(s, p + 1, d.inside, '}');
    } else {
      MembersRead(num, s, p + 1, d.members, map[]);
    }
  }

  lemma NoMembers(before: map<string, Value>)
    ensures MemberMeanings([], before) == before
  {
  }

  lemma MembersSkip(num: Strtod, s: string, p: nat, before: map<string, Value>)
    requires Sane(num) && p <= |s|
    ensures Members(num, s, Skip(s, p), before) == Members(num, s, p, before)
  {
    SkipTwice(s, p);
  }

  /** White space, a key, white space and a colon. */
  lemma KeyRead(s: string, p: nat, m: Member)
    requires KeyStands(s, p, m)
    ensures Skip(s, p) == p + |m.before| && At(s, Skip(s, p)) == '"'
    ensures var end := p + |KeyPart(m)|;
            var key := StringAt(s, Skip(s, p));
            && key.Some? && key.value.0 == Letters(m.key) && Skip(s, key.value.1) == end - 1
            && end <= |s| && At(s, end - 1) == ':'
  {
    hide HasAt, White, Quoted, StringAt, Proper;
    var k := p + |m.before|;
    var q := k + |Quoted(m.key)|;
    HasConcat(s, p, m.before + Quoted(m.key) + m.afterKey, ":");
    HasConcat(s, p, m.before + Quoted(m.key), m.afterKey);
    HasConcat(s, p, m.before, Quoted(m.key));
    HasOne(s, q + |m.afterKey|, ':');
    StringRead(s, k, m.key);
    SkipWhite(s, p, m.before);
    SkipWhite(s, q, m.afterKey);
  }

  lemma {:induction false} MemberRead(num: Strtod, s: string, p: nat, m: Member)
    requires Sane(num) && MemberStands(num, s, p, m) && At(s, p + |WrittenMember(m)|) !in " \t\n\r"
    ensures At(s, Skip(s, p)) == '"'
    ensures var r := MemberAt(num, s, p);
            && r == Some((Letters(m.key), Meaning(m.value.doc),
                          p + |KeyPart(m)| + |m.value.before| + |Written(m.value.doc)|))
            && Skip(s, r.value.2) == p + |WrittenMember(m)|
    decreases m, 1
  {
    hide HasAt, Sane, ValueAt, KeyPart, StringAt, KeyStands, ElemStands, Written, WrittenElem, Meaning;
    KeyRead(s, p, m);
    ElemRead(num, s, p + |KeyPart(m)|, m.value);
  }

  lemma MembersStep(num: Strtod, s: string, p: nat, before: map<string, Value>, key: string, v: Value, end: nat)
    requires Sane(num) && p <= |s| && MemberAt(num, s, p) == Some((key, v, end))
    ensures var q := Skip(s, end);
            && (At(s, q) == '}' ==> Members(num, s, p, before) == Some((before[key := v], q + 1)))
            && (At(s, q) == ',' ==> Members(num, s, p, before) == Members(num, s, q + 1, before[key := v]))
            && (Members(num, s, p, before).Some? ==> At(s, q) == '}' || At(s, q) == ',')
  {
    hide MemberAt;
  }

  lemma {:induction false} MembersRead(num: Strtod, s: string, p: nat, members: seq<Member>,
                                       before: map<string, Value>)
    requires Sane(num) && members != [] && MembersStand(num, s, p, members)
    ensures Members(num, s, p, before) == Some((MemberMeanings(members, before), p + |WrittenMembers(members)| + 1))
    ensures p <= |s| && At(s, Skip(s, p)) != '}'
    decreases members, 1
  {
    hide HasAt, Sane, MemberAt, Members, MemberStands, WrittenMember, Meaning;
    var m, t := members[0], members[1..];
    var q := p + |WrittenMember(m)|;
    var now := before[Letters(m.key) := Meaning(m.value.doc)];
    HasOne(s, q, if t == [] then '}' else ',');
    MemberRead(num, s, p, m);
    MembersStep(num, s, p, before, Letters(m.key), Meaning(m.value.doc),
                p + |KeyPart(m)| + |m.value.before| + |Written(m.value.doc)|);
    if t != [] {
      MembersRead(num, s, q + 1, t, now);
    } else {
      NoMembers(now);
    }
  }

  // ---------- nothing else is accepted ----------

  /** Whatever is accepted as a value is a document that stands there. */
  lemma {:induction false} DocParsed(num: Strtod, s: string, p: nat) returns (d: Doc)
    requires Sane(num) && p <= |s| && ValueAt(num, s, p).Some?
    ensures Stands(num, s, Skip(s, p), d)
    ensures ValueAt(num, s, p).value == (Meaning(d), Skip(s, p) + |Written(d)|)
    decreases |s| - p, 1
  {
    hide ValueAt, StringAt, ObjectAt, ArrayAt, Sane, HasAt, Skip, Proper, Quoted, Letters, White, ElemMeanings,
         MemberMeanings, ElemsStand, MembersStand, WrittenElems, WrittenMembers;
    var q := Skip(s, p);
    var c := At(s, q);
    ValueOfText(num, s, p);
    ValueOfWord(num, s, p);
    if c == '"' {
      var k := StringParsed(s, q);
      d := DStr(k);
    } else if c == '{' {
      d := ObjectParsed(num, s, q);
    } else if c == '[' {
      d := ArrayParsed(num, s, q);
    } else if c in "0123456789-+" {
      d := NumberParsed(num, s, q);
    } else if HasAt(s, q, "null") {
      d := DNull;
    } else if HasAt(s, q, "true") {
      d := DTrue;
    } else {
      d := DFalse;
    }
  }

  lemma NumberParsed(num: Strtod, s: string, p: nat) returns (d: Doc)
    requires Sane(num) && p <= |s| && At(s, p) in "0123456789-+" && num(s, p).1 > p
    ensures d.DNum? && Stands(num, s, p, d) && num(s, p) == (d.value, p + |Written(d)|)
  {
    var r := num(s, p);
    d := DNum(s[p..r.1], r.0);
    assert d.text[0] == s[p];
  }

  lemma {:induction false} ArrayParsed(num: Strtod, s: string, p: nat) returns (d: Doc)
    requires Sane(num) && p <= |s| && At(s, p) == '[' && ArrayAt(num, s, p).Some?
    ensures d.DArr? && Stands(num, s, p, d)
    ensures ArrayAt(num, s, p).value == (ElemMeanings(d.elems), p + |Written(d)|)
    decreases |s| - p, 0
  {
    hide HasAt, White, Sane, Elements, ElemsStand, WrittenElems, ElemMeanings, ArrayAt, Skip;
    HasOne(s, p, '[');
    ArrayOpens(num, s, p);
    var w := Skipped(s, p + 1);
    if At(s, p + 1 + |w|) == ']' {
      d := DArr([], w);
      NoMeanings();
      HasOne(s, p + 1 + |w|, ']');
      HasConcat(s, p + 1, w, "]");
    } else {
      var elems := ElemsParsed(num, s, p + 1, []);
      d := DArr(elems, "");
      assert [] + ElemMeanings(elems) == ElemMeanings(elems);
    }
  }

  lemma {:induction false} ElemParsed(num: Strtod, s: string, p: nat) returns (e: Elem)
    requires Sane(num) && p <= |s| && ValueAt(num, s, Skip(s, p)).Some?
    ensures ElemStands(num, s, p, e)
    ensures var v := ValueAt(num, s, Skip(s, p)).value;
            v == (Meaning(e.doc), p + |e.before| + |Written(e.doc)|) && Skip(s, v.1) == p + |WrittenElem(e)|
    decreases |s| - p, 2
  {
    hide HasAt, White, Sane, ValueAt, Stands, Written, Meaning, Skip;
    var v := ValueAt(num, s, Skip(s, p)).value;
    var before := Skipped(s, p);
    SkipTwice(s, p);
    var d := DocParsed(num, s, Skip(s, p));
    var after := Skipped(s, v.1);
    e := Elem(before, d, after);
  }

  /** One element, with a bracket or a comma and others behind it. */
  lemma ElemsBuilt(num: Strtod, s: string, p: nat, e: Elem, t: seq<Elem>)
    requires ElemStands(num, s, p, e)
    requires var q := p + |WrittenElem(e)|;
             if t == [] then HasAt(s, q, "]") else HasAt(s, q, ",") && ElemsStand(num, s, q + 1, t)
    ensures ElemsStand(num, s, p, [e] + t) && ElemMeanings([e] + t) == [Meaning(e.doc)] + ElemMeanings(t)
    ensures |WrittenElems([e] + t)| == |WrittenElem(e)| + if t == [] then 0 else 1 + |WrittenElems(t)|
  {
    hide HasAt, ElemStands, WrittenElem, Meaning;
    var elems := [e] + t;
    assert elems[0] == e && elems[1..] == t;
  }

  lemma {:induction false} ElemsParsed(num: Strtod, s: string, p: nat, before: seq<Value>) returns (elems: seq<Elem>)
    requires Sane(num) && p <= |s| && Elements(num, s, p, before).Some?
    ensures elems != [] && ElemsStand(num, s, p, elems)
    ensures Elements(num, s, p, before).value == (before + ElemMeanings(elems), p + |WrittenElems(elems)| + 1)
    decreases |s| - p, 3
  {
    hide HasAt, Sane, ValueAt, Elements, ElemStands, ElemsStand, WrittenElem, WrittenElems, Meaning, ElemMeanings, Skip;
    ElementsHasValue(num, s, p, before);
    var e := ElemParsed(num, s, p);
    var q := p + |WrittenElem(e)|;
    ElementsStep(num, s, p, before, Meaning(e.doc), p + |e.before| + |Written(e.doc)|);
    var t := [];
    NoMeanings();
    if At(s, q) == ']' {
      HasOne(s, q, ']');
      assert before + [Meaning(e.doc)] == before + ([Meaning(e.doc)] + []);
    } else {
      HasOne(s, q, ',');
      t := ElemsParsed(num, s, q + 1, before + [Meaning(e.doc)]);
      assert before + [Meaning(e.doc)] + ElemMeanings(t) == before + ([Meaning(e.doc)] + ElemMeanings(t));
    }
    ElemsBuilt(num, s, p, e, t);
    elems := [e] + t;
  }

  lemma ElementsHasValue(num: Strtod, s: string, p: nat, before: seq<Value>)
    requires Sane(num) && p <= |s| && Elements(num, s, p, before).Some?
    ensures ValueAt(num, s, Skip(s, p)).Some?
  {
    hide ValueAt;
  }

  lemma {:induction false} ObjectParsed(num: Strtod, s: string, p: nat) returns (d: Doc)
    requires Sane(num) && p <= |s| && At(s, p) == '{' && ObjectAt(num, s, p).Some?
    ensures d.DObj? && Stands(num, s, p, d)
    ensures ObjectAt(num, s, p).value == (MemberMeanings(d.members, map[]), p + |Written(d)|)
    decreases |s| - p, 0
  {
    hide HasAt, White, Sane, Members, MembersStand, WrittenMembers, MemberMeanings, ObjectAt, Skip;
    HasOne(s, p, '{');
    ObjectOpens(num, s, p);
    var w := Skipped(s, p + 1);
    if At(s, p + 1 + |w|) == '}' {
      d := DObj([], w);
      NoMembers(map[]);
      HasOne(s, p + 1 + |w|, '}');
      HasConcat(s, p + 1, w, "}");
    } else {
      var members := MembersParsed(num, s, p + 1, map[]);
      d := DObj(members, "");
    }
  }

  lemma KeyParsed(s: string, p: nat) returns (before: string, key: seq<Ch>, afterKey: string)
    requires p <= |s| && StringAt(s, Skip(s, p)).Some?
    requires At(s, Skip(s, StringAt(s, Skip(s, p)).value.1)) == ':'
    ensures var m := Member(before, key, afterKey, Elem("", DNull, ""));
            && KeyStands(s, p, m) && StringAt(s, Skip(s, p)).value.0 == Letters(key)
            && Skip(s, StringAt(s, Skip(s, p)).value.1) + 1 == p + |KeyPart(m)|
  {
    hide HasAt, White, Quoted, StringAt, Proper;
    before := Skipped(s, p);
    key := StringParsed(s, Skip(s, p));
    var q := StringAt(s, Skip(s, p)).value.1;
    afterKey := Skipped(s, q);
    HasOne(s, q + |afterKey|, ':');
    HasConcat(s, p, before, Quoted(key));
    HasConcat(s, p, before + Quoted(key), afterKey);
    HasConcat(s, p, before + Quoted(key) + afterKey, ":");
  }

  lemma {:induction false} MemberParsed(num: Strtod, s: string, p: nat) returns (m: Member)
    requires Sane(num) && p <= |s| && MemberAt(num, s, p).Some?
    ensures MemberStands(num, s, p, m)
    ensures var r := MemberAt(num, s, p).value;
            && r == (Letters(m.key), Meaning(m.value.doc), p + |KeyPart(m)| + |m.value.before| + |Written(m.value.doc)|)
            && Skip(s, r.2) == p + |WrittenMember(m)|
    decreases |s| - p, 4
  {
    hide HasAt, White, Sane, ValueAt, Stands, Written, Meaning, ElemStands, Proper, Quoted, StringAt;
    var before, key, afterKey := KeyParsed(s, p);
    var start := Skip(s, StringAt(s, Skip(s, p)).value.1) + 1;
    var e := ElemParsed(num, s, start);
    m := Member(before, key, afterKey, e);
  }

  lemma {:induction false} MembersParsed(num: Strtod, s: string, p: nat, before: map<string, Value>)
    returns (members: seq<Member>)
    requires Sane(num) && p <= |s| && Members(num, s, p, before).Some?
    ensures members != [] && MembersStand(num, s, p, members)
    ensures Members(num, s, p, before).value == (MemberMeanings(members, before), p + |WrittenMembers(members)| + 1)
    decreases |s| - p, 5
  {
    hide HasAt, Sane, MemberAt, Members, MemberStands, MembersStand, WrittenMember, WrittenMembers, Meaning,
         MemberMeanings, Skip;
    MembersHasOne(num, s, p, before);
    var m := MemberParsed(num, s, p);
    var q := p + |WrittenMember(m)|;
    var now := before[Letters(m.key) := Meaning(m.value.doc)];
    MembersStep(num, s, p, before, Letters(m.key), Meaning(m.value.doc),
                p + |KeyPart(m)| + |m.value.before| + |Written(m.value.doc)|);
    var t := [];
    NoMembers(now);
    if At(s, q) == '}' {
      HasOne(s, q, '}');
    } else {
      HasOne(s, q, ',');
      t := MembersParsed(num, s, q + 1, now);
    }
    MembersBuilt(num, s, p, m, t, before);
    members := [m] + t;
  }

  lemma MembersHasOne(num: Strtod, s: string, p: nat, before: map<string, Value>)
    requires Sane(num) && p <= |s| && Members(num, s, p, before).Some?
    ensures MemberAt(num, s, p).Some?
  {
    hide MemberAt;
  }

  lemma MembersBuilt(num: Strtod, s: string, p: nat, m: Member, t: seq<Member>, before: map<string, Value>)
    requires MemberStands(num, s, p, m)
    requires var q := p + |WrittenMember(m)|;
             if t == [] then HasAt(s, q, "}") else HasAt(s, q, ",") && MembersStand(num, s, q + 1, t)
    ensures MembersStand(num, s, p, [m] + t)
    ensures MemberMeanings([m] + t, before) == MemberMeanings(t, before[Letters(m.key) := Meaning(m.value.doc)])
    ensures |WrittenMembers([m] + t)| == |WrittenMember(m)| + if t == [] then 0 else 1 + |WrittenMembers(t)|
  {
    hide HasAt, MemberStands, WrittenMember, Meaning, Letters;
    var members := [m] + t;
    assert members[0] == m && members[1..] == t;
  }

  /** The parser takes a value at a position if and only if, behind white space, a document of the grammar
      stands there; what it gives is what the document means, and it stops where the document ends. */
  lemma AcceptsIff(num: Strtod, s: string, p: nat, v: Value, q: nat)
    requires Sane(num) && p <= |s|
    ensures ValueAt(num, s, p) == Some((v, q)) <==>
              exists d :: Stands(num, s, Skip(s, p), d) && v == Meaning(d) && q == Skip(s, p) + |Written(d)|
  {
    hide Stands, ValueAt, Meaning, Written, Sane;
    if ValueAt(num, s, p) == Some((v, q)) {
      var d := DocParsed(num, s, p);
    }
    if d :| Stands(num, s, Skip(s, p), d) && v == Meaning(d) && q == Skip(s, p) + |Written(d)| {
      DocRead(num, s, Skip(s, p), d);
      ValueSkip(num, s, p);
    }
  }

  lemma ValueSkip(num: Strtod, s: string, p: nat)
    requires Sane(num) && p <= |s|
    ensures ValueAt(num, s, Skip(s, p)) == ValueAt(num, s, p)
  {
    SkipTwice(s, p);
  }
}
