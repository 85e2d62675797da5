/** The JSON the logical backup is written in: strings, arrays and objects (RFC 8259).

    `Print` is the text without any white space, which is what the program streams; `Parse`
    is a reader for the grammar, white space and all, and knows nothing of `Print`. */
module BackupJson {
  import opened Common
  import opened BackupText

  datatype Json = JStr(text: Text) | JArr(items: seq<Json>) | JObj(members: seq<Member>)
  datatype Member = Member(key: Text, value: Json)

  const COMMA: Byte := 0x2C
  const COLON: Byte := 0x3A
  const LBRACKET: Byte := 0x5B
  const RBRACKET: Byte := 0x5D
  const LBRACE: Byte := 0x7B
  const RBRACE: Byte := 0x7D

  function Print(v: Json): Text
    decreases v, 1
  {
    match v
    case JStr(text) => JsonString(text)
    case JArr(items) => [LBRACKET] + PrintItems(items) + [RBRACKET]
    case JObj(members) => [LBRACE] + PrintMembers(members) + [RBRACE]
  }

  function PrintItems(items: seq<Json>): Text
    decreases items, 0
  {
    if items == [] then []
    else if |items| == 1 then Print(items[0])
    else Print(items[0]) + [COMMA] + PrintItems(items[1..])
  }

  function PrintMembers(members: seq<Member>): Text
    decreases members, 0
  {
    if members == [] then []
    else
      var first := PrintMember(members[0]);
      if |members| == 1 then first else first + [COMMA] + PrintMembers(members[1..])
  }

  function PrintMember(m: Member): Text
    decreases m, 2
  {
    JsonString(m.key) + [COLON] + Print(m.value)
  }

  // ---- reading ----

  predicate IsSpace(b: Byte) {
    b == 0x20 || b == 0x09 || b == 0x0A || b == 0x0D
  }

  function SkipSpace(s: Text): (r: Text)
    ensures |r| <= |s|
  {
    if s != [] && IsSpace(s[0]) then SkipSpace(s[1..]) else s
  }

  /** A value, after any white space, and what follows it. */
  function Parse(input: Text): (r: Option<(Json, Text)>)
    ensures r.Some? ==> |r.value.1| < |input|
    decreases |input|, 0
  {
    var s := SkipSpace(input);
    if s == [] then None
    else if s[0] == QUOTE then
      match Unescape(s[1..])
      case None => None
      case Some((text, rest)) => Some((JStr(text), rest))
    else if s[0] == LBRACKET then ParseArray(s[1..])
    else if s[0] == LBRACE then ParseObject(s[1..])
    else None
  }

  /** The inside of an array and its closing bracket. */
  function ParseArray(s: Text): (r: Option<(Json, Text)>)
    ensures r.Some? ==> |r.value.1| < |s|
    decreases |s|, 3
  {
    var t := SkipSpace(s);
    if t != [] && t[0] == RBRACKET then Some((JArr([]), t[1..]))
    else
      match ParseItems(s)
      case None => None
      case Some((items, rest)) => Some((JArr(items), rest))
  }

  function ParseObject(s: Text): (r: Option<(Json, Text)>)
    ensures r.Some? ==> |r.value.1| < |s|
    decreases |s|, 3
  {
    var t := SkipSpace(s);
    if t != [] && t[0] == RBRACE then Some((JObj([]), t[1..]))
    else
      match ParseMembers(s)
      case None => None
      case Some((members, rest)) => Some((JObj(members), rest))
  }

  /** One or more values with commas between, and the closing bracket. */
  function ParseItems(s: Text): (r: Option<(seq<Json>, Text)>)
    ensures r.Some? ==> |r.value.1| < |s|
    decreases |s|, 1
  {
    match Parse(s)
    case None => None
    case Some((item, after)) =>
      var t := SkipSpace(after);
      if t == [] then None
      else if t[0] == RBRACKET then Some(([item], t[1..]))
      else if t[0] == COMMA then
        match ParseItems(t[1..])
        case None => None
        case Some((items, rest)) => Some(([item] + items, rest))
      else None
  }

  /** A key and its colon. */
  function ParseKey(s: Text): (r: Option<(Text, Text)>)
    ensures r.Some? ==> |r.value.1| < |s|
  {
    var t := SkipSpace(s);
    if t == [] || t[0] != QUOTE then None
    else
      match Unescape(t[1..])
      case None => None
      case Some((key, after)) =>
        var u := SkipSpace(after);
        if u == [] || u[0] != COLON then None else Some((key, u[1..]))
  }

  function ParseMember(s: Text): (r: Option<(Member, Text)>)
    ensures r.Some? ==> |r.value.1| < |s|
    decreases |s|, 1
  {
    match ParseKey(s)
    case None => None
    case Some((key, after)) =>
      match Parse(after)
      case None => None
      case Some((value, rest)) => Some((Member(key, value), rest))
  }

  function ParseMembers(s: Text): (r: Option<(seq<Member>, Text)>)
    ensures r.Some? ==> |r.value.1| < |s|
    decreases |s|, 2
  {
    match ParseMember(s)
    case None => None
    case Some((member, after)) =>
      var t := SkipSpace(after);
      if t == [] then None
      else if t[0] == RBRACE then Some(([member], t[1..]))
      else if t[0] == COMMA then
        match ParseMembers(t[1..])
        case None => None
        case Some((members, rest)) => Some(([member] + members, rest))
      else None
  }

  /** A whole document: one value and nothing but white space after it. */
  function ParseDocument(s: Text): Option<Json> {
    match Parse(s)
    case Some((v, rest)) => if SkipSpace(rest) == [] then Some(v) else None
    case None => None
  }

  // ---- the round trip ----

  /** The value with every text in it sanitized, which is all that printing can lose. */
  function Clean(v: Json): Json
    decreases v, 1
  {
    match v
    case JStr(text) => JStr(Sanitize(text))
    case JArr(items) => JArr(CleanItems(items))
    case JObj(members) => JObj(CleanMembers(members))
  }

  function CleanItems(items: seq<Json>): seq<Json>
    decreases items, 0
  {
    if items == [] then [] else [Clean(items[0])] + CleanItems(items[1..])
  }

  function CleanMembers(members: seq<Member>): seq<Member>
    decreases members, 0
  {
    if members == [] then []
    else [CleanMember(members[0])] + CleanMembers(members[1..])
  }

  /** A printed value starts with a bracket or a quote: no white space, and nothing that
      closes. */
  lemma PrintStarts(v: Json)
    ensures |Print(v)| > 0
    ensures Print(v)[0] == QUOTE || Print(v)[0] == LBRACKET || Print(v)[0] == LBRACE
  {
  }

  lemma {:induction false} ParsePrint(v: Json, rest: Text)
    ensures Parse(Print(v) + rest) == Some((Clean(v), rest))
    decreases v, 1
  {
    match v
    case JStr(text) => JsonStringRoundTrip(text, rest);
    case JArr(items) =>
      if items != [] {
        ParsePrintItems(items, rest);
      }
      ArrayRead(items, rest);
      AfterBracket([LBRACKET], PrintItems(items), [RBRACKET], rest);
    case JObj(members) =>
      if members != [] {
        ParsePrintMembers(members, rest);
      }
      ObjectRead(members, rest);
      AfterBracket([LBRACE], PrintMembers(members), [RBRACE], rest);
  }

  /** A bracketed text is read from its inside. */
  lemma AfterBracket(left: Text, inside: Text, right: Text, rest: Text)
    requires left == [LBRACKET] || left == [LBRACE]
    ensures Parse(left + inside + right + rest) ==
      (if left[0] == LBRACKET then ParseArray(inside + (right + rest)) else ParseObject(inside + (right + rest)))
  {
    var s := left + inside + right + rest;
    assert s[1..] == inside + (right + rest);
    assert SkipSpace(s) == s;
  }

  lemma ArrayRead(items: seq<Json>, rest: Text)
    requires items != [] ==> ParseItems(PrintItems(items) + ([RBRACKET] + rest)) == Some((CleanItems(items), rest))
    ensures ParseArray(PrintItems(items) + ([RBRACKET] + rest)) == Some((JArr(CleanItems(items)), rest))
  {
    var inside := PrintItems(items) + ([RBRACKET] + rest);
    if items == [] {
      assert inside == [RBRACKET] + rest && inside[1..] == rest;
    } else {
      ItemsStart(items);
      assert inside[0] == PrintItems(items)[0];
    }
  }

  lemma ObjectRead(members: seq<Member>, rest: Text)
    requires members != [] ==> ParseMembers(PrintMembers(members) + ([RBRACE] + rest)) == Some((CleanMembers(members), rest))
    ensures ParseObject(PrintMembers(members) + ([RBRACE] + rest)) == Some((JObj(CleanMembers(members)), rest))
  {
    var inside := PrintMembers(members) + ([RBRACE] + rest);
    if members == [] {
      assert inside == [RBRACE] + rest && inside[1..] == rest;
    } else {
      MembersStart(members);
      assert inside[0] == QUOTE;
    }
  }

  lemma ItemsStart(items: seq<Json>)
    requires items != []
    ensures |PrintItems(items)| > 0
    ensures PrintItems(items)[0] == Print(items[0])[0]
    ensures !IsSpace(PrintItems(items)[0]) && PrintItems(items)[0] != RBRACKET
  {
    PrintStarts(items[0]);
  }

  lemma {:induction false} ParsePrintItems(items: seq<Json>, rest: Text)
    requires items != []
    ensures ParseItems(PrintItems(items) + ([RBRACKET] + rest)) == Some((CleanItems(items), rest))
    decreases items, 0
  {
    var close := [RBRACKET] + rest;
    if |items| == 1 {
      ParsePrint(items[0], close);
      assert close[1..] == rest && items[1..] == [] && [Clean(items[0])] + [] == [Clean(items[0])];
    } else {
      var more := PrintItems(items[1..]) + close;
      CommaAssociates(Print(items[0]), PrintItems(items[1..]), close);
      ParsePrint(items[0], [COMMA] + more);
      assert ([COMMA] + more)[1..] == more;
      ParsePrintItems(items[1..], rest);
    }
  }

  lemma MembersStart(members: seq<Member>)
    requires members != []
    ensures |PrintMembers(members)| > 0 && PrintMembers(members)[0] == QUOTE
  {
    assert PrintMember(members[0])[0] == QUOTE;
  }

  lemma {:induction false} ParsePrintMembers(members: seq<Member>, rest: Text)
    requires members != []
    ensures ParseMembers(PrintMembers(members) + ([RBRACE] + rest)) == Some((CleanMembers(members), rest))
    decreases members, 0
  {
    if |members| == 1 {
      ParsePrintMember(members[0], [RBRACE] + rest);
      LastMember(members[0], rest);
      OneMember(members);
    } else {
      var more := PrintMembers(members[1..]) + ([RBRACE] + rest);
      ParsePrintMember(members[0], [COMMA] + more);
      ParsePrintMembers(members[1..], rest);
      NextMember(members[0], more);
      MoreMembers(members, rest);
    }
  }

  lemma OneMember(members: seq<Member>)
    requires |members| == 1
    ensures PrintMembers(members) == PrintMember(members[0]) && CleanMembers(members) == [CleanMember(members[0])]
  {
    assert members[1..] == [] && CleanMembers([]) == [];
  }

  lemma MoreMembers(members: seq<Member>, rest: Text)
    requires |members| > 1
    ensures PrintMembers(members) + ([RBRACE] + rest)
            == PrintMember(members[0]) + ([COMMA] + (PrintMembers(members[1..]) + ([RBRACE] + rest)))
    ensures CleanMembers(members) == [CleanMember(members[0])] + CleanMembers(members[1..])
  {
    CommaAssociates(PrintMember(members[0]), PrintMembers(members[1..]), [RBRACE] + rest);
  }

  lemma CommaAssociates(a: Text, b: Text, c: Text)
    ensures a + [COMMA] + b + c == a + ([COMMA] + (b + c))
  {
  }

  lemma LastMember(m: Member, rest: Text)
    requires ParseMember(PrintMember(m) + ([RBRACE] + rest)) == Some((CleanMember(m), [RBRACE] + rest))
    ensures ParseMembers(PrintMember(m) + ([RBRACE] + rest)) == Some(([CleanMember(m)], rest))
  {
    assert ([RBRACE] + rest)[1..] == rest;
  }

  lemma NextMember(m: Member, more: Text)
    requires ParseMember(PrintMember(m) + ([COMMA] + more)) == Some((CleanMember(m), [COMMA] + more))
    ensures ParseMembers(PrintMember(m) + ([COMMA] + more)) ==
      match ParseMembers(more)
      case None => None
      case Some((members, rest)) => Some(([CleanMember(m)] + members, rest))
  {
    assert ([COMMA] + more)[1..] == more;
  }

  function CleanMember(m: Member): Member
    decreases m, 2
  {
    Member(Sanitize(m.key), Clean(m.value))
  }

  lemma ParsePrintKey(key: Text, rest: Text)
    ensures ParseKey(JsonString(key) + ([COLON] + rest)) == Some((Sanitize(key), rest))
  {
    JsonStringRoundTrip(key, [COLON] + rest);
    assert ([COLON] + rest)[1..] == rest;
  }

  lemma {:induction false} ParsePrintMember(m: Member, rest: Text)
    ensures ParseMember(PrintMember(m) + rest) == Some((CleanMember(m), rest))
    decreases m, 2
  {
    assert PrintMember(m) + rest == JsonString(m.key) + ([COLON] + (Print(m.value) + rest));
    ParsePrintKey(m.key, Print(m.value) + rest);
    ParsePrint(m.value, rest);
  }

  /** Reading a printed document gives the value back, each text in it sanitized. */
  lemma DocumentRoundTrip(v: Json)
    ensures ParseDocument(Print(v)) == Some(Clean(v))
  {
    ParsePrint(v, []);
    assert Print(v) + [] == Print(v);
  }

  predicate AllValid(v: Json)
    decreases v, 1
  {
    match v
    case JStr(text) => ValidUtf8(text)
    case JArr(items) => forall i :: 0 <= i < |items| ==> AllValid(items[i])
    case JObj(members) => forall i :: 0 <= i < |members| ==> ValidUtf8(members[i].key) && AllValid(members[i].value)
  }

  /** When every text in it is valid UTF-8, a value comes back exactly as it was. */
  lemma {:induction false} CleanValid(v: Json)
    requires AllValid(v)
    ensures Clean(v) == v
    decreases v, 1
  {
    match v
    case JStr(text) => SanitizeValid(text);
    case JArr(items) => CleanValidItems(items);
    case JObj(members) => CleanValidMembers(members);
  }

  lemma {:induction false} CleanValidItems(items: seq<Json>)
    requires forall i :: 0 <= i < |items| ==> AllValid(items[i])
    ensures CleanItems(items) == items
    decreases items, 0
  {
    if items != [] {
      CleanValid(items[0]);
      CleanValidItems(items[1..]);
    }
  }

  lemma {:induction false} CleanValidMembers(members: seq<Member>)
    requires forall i :: 0 <= i < |members| ==> ValidUtf8(members[i].key) && AllValid(members[i].value)
    ensures CleanMembers(members) == members
    decreases members, 0
  {
    if members != [] {
      SanitizeValid(members[0].key);
      CleanValid(members[0].value);
      CleanValidMembers(members[1..]);
    }
  }

  lemma {:induction false} CleanItemsAt(items: seq<Json>)
    ensures |CleanItems(items)| == |items|
    ensures forall i :: 0 <= i < |items| ==> CleanItems(items)[i] == Clean(items[i])
  {
    if items != [] {
      CleanItemsAt(items[1..]);
    }
  }
}
