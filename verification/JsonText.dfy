/**
 JSON texts, byte by byte (one char stands for one byte): the compact form the program writes, and
 an independent recognizer of the grammar of RFC 8259 (sections 2 to 7).

 The point is the difference between a whole text and its beginning: an object that is cut off
 anywhere is no JSON text at all.
 */
module JsonText {
  import opened Wrappers
  import opened Text

  // ---------------------------------------------------------------------
  // The recognizer. Every function returns the position behind what it recognizes.
  // ---------------------------------------------------------------------

  predicate IsBlank(c: char) {
    c == ' ' || c == '\t' || c == '\n' || c == '\r'
  }

  function Skip(t: string, at: nat): (r: nat)
    requires at <= |t|
    ensures at <= r <= |t| && (r < |t| ==> !IsBlank(t[r]))
    decreases |t| - at
  {
    if at < |t| && IsBlank(t[at]) then Skip(t, at + 1) else at
  }

  predicate IsHex(c: char) {
    IsDigit(c) || 'a' <= c <= 'f' || 'A' <= c <= 'F'
  }

  /** The rest of a string whose opening quote has been read. */
  function StringEnd(t: string, at: nat): (r: Option<nat>)
    ensures r.Some? ==> at < r.value <= |t|
    decreases |t| - at
  {
    if at >= |t| then None
    else if t[at] == '"' then Some(at + 1)
    else if t[at] < ' ' then None
    else if t[at] != '\\' then StringEnd(t, at + 1)
    else if at + 1 >= |t| then None
    else if t[at + 1] in "\"\\/bfnrt" then StringEnd(t, at + 2)
    else if t[at + 1] == 'u' && at + 6 <= |t| && forall k :: at + 2 <= k < at + 6 ==> IsHex(t[k]) then StringEnd(t, at + 6)
    else None
  }

  /** The end of a run of digits. */
  function Digits(t: string, at: nat): (r: nat)
    requires at <= |t|
    ensures at <= r <= |t| && (r < |t| ==> !IsDigit(t[r]))
    decreases |t| - at
  {
    if at < |t| && IsDigit(t[at]) then Digits(t, at + 1) else at
  }

  function Fraction(t: string, at: nat): (r: Option<nat>)
    requires at <= |t|
    ensures r.Some? ==> at <= r.value <= |t|
  {
    if at < |t| && t[at] == '.' then
      var end := Digits(t, at + 1);
      if end == at + 1 then None else Some(end)
    else Some(at)
  }

  function Exponent(t: string, at: nat): (r: Option<nat>)
    requires at <= |t|
    ensures r.Some? ==> at <= r.value <= |t|
  {
    if at < |t| && t[at] in "eE" then
      var start := if at + 1 < |t| && t[at + 1] in "+-" then at + 2 else at + 1;
      var end := Digits(t, start);
      if end == start then None else Some(end)
    else Some(at)
  }

  function Number(t: string, at: nat): (r: Option<nat>)
    requires at <= |t|
    ensures r.Some? ==> at < r.value <= |t|
  {
    var start := if at < |t| && t[at] == '-' then at + 1 else at;
    var end := Digits(t, start);
    if end == start || (t[start] == '0' && end > start + 1) then None
    else
      match Fraction(t, end)
      case None => None
      case Some(f) => Exponent(t, f)
  }

  function Literal(t: string, at: nat, word: string): (r: Option<nat>)
    ensures r.Some? ==> r.value == at + |word| <= |t|
  {
    if at + |word| <= |t| && t[at..at + |word|] == word then Some(at + |word|) else None
  }

  function Value(t: string, at: nat): (r: Option<nat>)
    requires at <= |t|
    ensures r.Some? ==> at < r.value <= |t|
    decreases |t| - at, 1
  {
    if at == |t| then None
    else if t[at] == '{' then
      var i := Skip(t, at + 1);
      if i < |t| && t[i] == '}' then Some(i + 1) else Members(t, i)
    else if t[at] == '[' then
      var i := Skip(t, at + 1);
      if i < |t| && t[i] == ']' then Some(i + 1) else Elements(t, i)
    else if t[at] == '"' then StringEnd(t, at + 1)
    else if t[at] == 'n' then Literal(t, at, "null")
    else if t[at] == 't' then Literal(t, at, "true")
    else if t[at] == 'f' then Literal(t, at, "false")
    else Number(t, at)
  }

  /** A name, a colon and a value. */
  function Member(t: string, at: nat): (r: Option<nat>)
    requires at <= |t|
    ensures r.Some? ==> at < r.value <= |t|
    decreases |t| - at, 2
  {
    if at == |t| || t[at] != '"' then None
    else
      match StringEnd(t, at + 1)
      case None => None
      case Some(key) =>
        var colon := Skip(t, key);
        if colon == |t| || t[colon] != ':' then None else Value(t, Skip(t, colon + 1))
  }

  /** The members of an object and its closing brace. */
  function Members(t: string, at: nat): (r: Option<nat>)
    requires at <= |t|
    ensures r.Some? ==> at < r.value <= |t|
    decreases |t| - at, 3
  {
    match Member(t, at)
    case None => None
    case Some(value) =>
      var next := Skip(t, value);
      if next == |t| then None
      else if t[next] == '}' then Some(next + 1)
      else if t[next] == ',' then Members(t, Skip(t, next + 1))
      else None
  }

  /** The elements of an array and its closing bracket. */
  function Elements(t: string, at: nat): (r: Option<nat>)
    requires at <= |t|
    ensures r.Some? ==> at < r.value <= |t|
    decreases |t| - at, 2
  {
    match Value(t, at)
    case None => None
    case Some(value) =>
      var next := Skip(t, value);
      if next == |t| then None
      else if t[next] == ']' then Some(next + 1)
      else if t[next] == ',' then Elements(t, Skip(t, next + 1))
      else None
  }

  /** A JSON text: one value, with blanks around it. */
  predicate IsText(t: string) {
    var value := Value(t, Skip(t, 0));
    value.Some? && Skip(t, value.value) == |t|
  }

  // ---------------------------------------------------------------------
  // What is recognized stays recognized when more text follows
  // ---------------------------------------------------------------------

  lemma {:induction false} SkipStays(p: string, t: string, at: nat)
    requires p <= t && at <= |p| && Skip(p, at) < |p|
    ensures Skip(t, at) == Skip(p, at)
    decreases |p| - at
  {
    if at < |p| && IsBlank(p[at]) {
      SkipStays(p, t, at + 1);
    }
  }

  lemma {:induction false} StringStays(p: string, t: string, at: nat)
    requires p <= t && StringEnd(p, at).Some?
    ensures StringEnd(t, at) == StringEnd(p, at)
    decreases |p| - at
  {
    if p[at] == '"' {
    } else if p[at] != '\\' {
      StringStays(p, t, at + 1);
    } else if p[at + 1] in "\"\\/bfnrt" {
      StringStays(p, t, at + 2);
    } else {
      StringStays(p, t, at + 6);
    }
  }

  lemma {:induction false} DigitsStay(p: string, t: string, at: nat)
    requires p <= t && at <= |p| && Digits(p, at) < |p|
    ensures Digits(t, at) == Digits(p, at)
    decreases |p| - at
  {
    if at < |p| && IsDigit(p[at]) {
      DigitsStay(p, t, at + 1);
    }
  }

  /** A number stays one only if something else follows it already. */
  lemma NumberStays(p: string, t: string, at: nat)
    requires p <= t && at <= |p| && Number(p, at).Some? && Number(p, at).value < |p|
    ensures Number(t, at) == Number(p, at)
  {
    hide Digits;
    var start := if at < |p| && p[at] == '-' then at + 1 else at;
    var end := Digits(p, start);
    DigitsStay(p, t, start);
    var f := Fraction(p, end).value;
    if p[end] == '.' {
      DigitsStay(p, t, end + 1);
    }
    if p[f] in "eE" {
      var first := if f + 1 < |p| && p[f + 1] in "+-" then f + 2 else f + 1;
      DigitsStay(p, t, first);
    }
  }

  /** A value that does not end in the open stays where it is. */
  lemma {:induction false} ValueStays(p: string, t: string, at: nat)
    requires p <= t && at <= |p| && Value(p, at).Some?
    requires Value(p, at).value < |p| || p[at] in "{[\""
    ensures Value(t, at) == Value(p, at)
    decreases |p| - at, 1
  {
    hide Skip, StringEnd, Members, Elements, Number;
    if p[at] == '{' || p[at] == '[' {
      var i := Skip(p, at + 1);
      SkipStays(p, t, at + 1);
      if p[at] == '{' && p[i] != '}' {
        MembersStay(p, t, i);
      } else if p[at] == '[' && p[i] != ']' {
        ElementsStay(p, t, i);
      }
    } else if p[at] == '"' {
      StringStays(p, t, at + 1);
    } else if p[at] == 'n' || p[at] == 't' || p[at] == 'f' {
      var e := Value(p, at).value;
      assert t[at..e] == p[at..e];
    } else {
      NumberStays(p, t, at);
    }
  }

  lemma {:induction false} MemberStays(p: string, t: string, at: nat)
    requires p <= t && at <= |p| && Member(p, at).Some? && Member(p, at).value < |p|
    ensures Member(t, at) == Member(p, at)
    decreases |p| - at, 2
  {
    hide Skip, StringEnd, Value;
    StringStays(p, t, at + 1);
    var key := StringEnd(p, at + 1).value;
    SkipStays(p, t, key);
    var colon := Skip(p, key);
    var start := Skip(p, colon + 1);
    SkipStays(p, t, colon + 1);
    ValueStays(p, t, start);
  }

  lemma {:induction false} MembersStay(p: string, t: string, at: nat)
    requires p <= t && at <= |p| && Members(p, at).Some?
    ensures Members(t, at) == Members(p, at)
    decreases |p| - at, 3
  {
    hide Skip, Member;
    var value := Member(p, at).value;
    MemberStays(p, t, at);
    SkipStays(p, t, value);
    var next := Skip(p, value);
    if p[next] == ',' {
      SkipStays(p, t, next + 1);
      MembersStay(p, t, Skip(p, next + 1));
    }
  }

  lemma {:induction false} ElementsStay(p: string, t: string, at: nat)
    requires p <= t && at <= |p| && Elements(p, at).Some?
    ensures Elements(t, at) == Elements(p, at)
    decreases |p| - at, 2
  {
    hide Skip, Value, Members;
    var value := Value(p, at).value;
    ValueStays(p, t, at);
    SkipStays(p, t, value);
    var next := Skip(p, value);
    if p[next] == ',' {
      SkipStays(p, t, next + 1);
      ElementsStay(p, t, Skip(p, next + 1));
    }
  }

  // ---------------------------------------------------------------------
  // The writer
  // ---------------------------------------------------------------------

  /** A value as the program has it; a number by the text that is written for it. */
  datatype Json =
    | Null
    | Bool(value: bool)
    | Num(text: string)
    | Str(text: string)
    | Array(items: seq<Json>)
    | Object(members: seq<(string, Json)>)

  function HexDigit(d: nat): char
    requires d < 16
  {
    if d < 10 then Digit(d) else ('a' as int + (d - 10)) as char
  }

  /** Quotes, backslashes and control characters are escaped, everything else is written as it is. */
  function Escape(c: char): string {
    if c == '"' then "\\\""
    else if c == '\\' then "\\\\"
    else if c == '\U{0008}' then "\\b"
    else if c == '\U{000C}' then "\\f"
    else if c == '\n' then "\\n"
    else if c == '\r' then "\\r"
    else if c == '\t' then "\\t"
    else if c < ' ' then "\\u00" + [HexDigit(c as int / 16), HexDigit(c as int % 16)]
    else [c]
  }

  function Escaped(s: string): string {
    if s == "" then "" else Escape(s[0]) + Escaped(s[1..])
  }

  function HexValue(c: char): nat
    requires IsHex(c)
  {
    if IsDigit(c) then c as nat - '0' as nat
    else if 'a' <= c <= 'f' then c as nat - 'a' as nat + 10
    else c as nat - 'A' as nat + 10
  }

  /** What the contents of a string stand for (section 7 of RFC 8259), for characters below 256. */
  function Unescaped(t: string): Option<string> {
    if t == "" then Some("")
    else if t[0] != '\\' then Before(t[0], Unescaped(t[1..]))
    else if |t| < 2 then None
    else if t[1] in "\"\\/" then Before(t[1], Unescaped(t[2..]))
    else if t[1] == 'b' then Before('\U{0008}', Unescaped(t[2..]))
    else if t[1] == 'f' then Before('\U{000C}', Unescaped(t[2..]))
    else if t[1] == 'n' then Before('\n', Unescaped(t[2..]))
    else if t[1] == 'r' then Before('\r', Unescaped(t[2..]))
    else if t[1] == 't' then Before('\t', Unescaped(t[2..]))
    else if t[1] == 'u' && |t| >= 6 && t[2] == '0' && t[3] == '0' && IsHex(t[4]) && IsHex(t[5]) then
      Before((16 * HexValue(t[4]) + HexValue(t[5])) as char, Unescaped(t[6..]))
    else None
  }

  function Before(c: char, rest: Option<string>): Option<string> {
    if rest.Some? then Some([c] + rest.value) else None
  }

  lemma OneIsUnescaped(c: char, rest: string)
    ensures Unescaped(Escape(c) + rest) == Before(c, Unescaped(rest))
  {
    var t := Escape(c) + rest;
    assert t[|Escape(c)|..] == rest;
    if c < ' ' && c !in "\U{0008}\U{000C}\n\r\t" {
      assert t[..6] == Escape(c);
      assert t[4] == HexDigit(c as int / 16) && t[5] == HexDigit(c as int % 16);
      assert 16 * HexValue(t[4]) + HexValue(t[5]) == c as int;
    }
  }

  /** What is written in quotes stands for the string it was made from. */
  lemma {:induction false} StringsAreReadBack(s: string)
    ensures Unescaped(Escaped(s)) == Some(s)
  {
    if s != "" {
      hide Escape, Unescaped;
      StringsAreReadBack(s[1..]);
      OneIsUnescaped(s[0], Escaped(s[1..]));
      assert s == [s[0]] + s[1..];
    } else {
      assert Unescaped("") == Some("");
    }
  }

  function Quote(s: string): string {
    "\"" + Escaped(s) + "\""
  }

  function Write(v: Json): string
    decreases v, 0
  {
    match v
    case Null => "null"
    case Bool(value) => if value then "true" else "false"
    case Num(text) => text
    case Str(text) => Quote(text)
    case Array(items) => "[" + WriteItems(items) + "]"
    case Object(members) => "{" + WriteMembers(members) + "}"
  }

  function WriteItems(items: seq<Json>): string
    decreases items, 1
  {
    if items == [] then ""
    else if |items| == 1 then Write(items[0])
    else Write(items[0]) + "," + WriteItems(items[1..])
  }

  function WriteMember(member: (string, Json)): string
    decreases member, 1
  {
    Quote(member.0) + ":" + Write(member.1)
  }

  function WriteMembers(members: seq<(string, Json)>): string
    decreases members, 2
  {
    if members == [] then ""
    else if |members| == 1 then WriteMember(members[0])
    else WriteMember(members[0]) + "," + WriteMembers(members[1..])
  }

  /** All that is assumed about writing a number: its text is one. */
  predicate NumbersOk(v: Json)
    decreases v
  {
    match v
    case Num(text) => text != "" && Number(text, 0) == Some(|text|)
    case Array(items) => forall i :: 0 <= i < |items| ==> NumbersOk(items[i])
    case Object(members) => forall i :: 0 <= i < |members| ==> NumbersOk(members[i].1)
    case _ => true
  }

  // ---------------------------------------------------------------------
  // What is written is recognized, up to its very end
  // ---------------------------------------------------------------------

  lemma OccursSplit(t: string, a: string, b: string, at: nat)
    requires OccursAt(t, a + b, at)
    ensures OccursAt(t, a, at) && OccursAt(t, b, at + |a|) && at + |a| + |b| <= |t|
  {
    var whole := t[at..at + |a + b|];
    assert whole[..|a|] == a && whole[|a|..] == b;
    assert t[at..at + |a|] == whole[..|a|] && t[at + |a|..at + |a| + |b|] == whole[|a|..];
  }

  lemma CharAt(t: string, w: string, at: nat, k: nat)
    requires OccursAt(t, w, at) && k < |w|
    ensures at + k < |t| && t[at + k] == w[k]
  {
    assert t[at..at + |w|][k] == w[k];
  }

  lemma EscapeRead(t: string, at: nat, c: char)
    requires OccursAt(t, Escape(c), at)
    ensures StringEnd(t, at) == StringEnd(t, at + |Escape(c)|)
  {
    var w := Escape(c);
    CharAt(t, w, at, 0);
    if |w| == 2 {
      CharAt(t, w, at, 1);
      assert w[1] in "\"\\/bfnrt";
    } else if |w| == 6 {
      forall k: nat | k < 6 ensures t[at + k] == w[k] {
        CharAt(t, w, at, k);
      }
      assert w[1] == 'u' && w[1] !in "\"\\/bfnrt";
      assert forall k :: 2 <= k < 6 ==> IsHex(w[k]);
      assert forall k :: at + 2 <= k < at + 6 ==> t[k] == w[k - at];
    }
  }

  lemma {:induction false} EscapedRead(t: string, at: nat, s: string)
    requires OccursAt(t, Escaped(s) + "\"", at)
    ensures StringEnd(t, at) == Some(at + |Escaped(s)| + 1)
    decreases |s|
  {
    hide Escape, StringEnd;
    if s == "" {
      CharAt(t, "\"", at, 0);
      EmptyString(t, at);
    } else {
      var first, rest := Escape(s[0]), Escaped(s[1..]) + "\"";
      assert Escaped(s) + "\"" == first + rest;
      OccursSplit(t, first, rest, at);
      EscapeRead(t, at, s[0]);
      EscapedRead(t, at + |first|, s[1..]);
    }
  }

  lemma EmptyString(t: string, at: nat)
    requires at < |t| && t[at] == '"'
    ensures StringEnd(t, at) == Some(at + 1)
  {
  }

  lemma QuoteRead(t: string, at: nat, s: string)
    requires OccursAt(t, Quote(s), at)
    ensures t[at] == '"' && StringEnd(t, at + 1) == Some(at + |Quote(s)|)
  {
    hide Escaped, StringEnd;
    assert Quote(s) == "\"" + (Escaped(s) + "\"");
    CharAt(t, Quote(s), at, 0);
    OccursSplit(t, "\"", Escaped(s) + "\"", at);
    EscapedRead(t, at + 1, s);
  }

  predicate NumberChar(c: char) {
    IsDigit(c) || c in ".eE+-"
  }

  /** A number cannot go on here. */
  predicate Ends(t: string, at: nat) {
    at == |t| || (at < |t| && !NumberChar(t[at]))
  }

  lemma {:induction false} DigitsShift(w: string, t: string, at: nat, i: nat)
    requires OccursAt(t, w, at) && i <= |w| && Ends(t, at + |w|)
    ensures Digits(t, at + i) == at + Digits(w, i)
    decreases |w| - i
  {
    if i < |w| {
      CharAt(t, w, at, i);
      if IsDigit(w[i]) {
        DigitsShift(w, t, at, i + 1);
      }
    }
  }

  lemma NumberRead(t: string, at: nat, w: string)
    requires OccursAt(t, w, at) && Ends(t, at + |w|) && w != "" && Number(w, 0) == Some(|w|)
    ensures Number(t, at) == Some(at + |w|) && (w[0] == '-' || IsDigit(w[0]))
  {
    hide Digits;
    forall k: nat | k < |w| ensures t[at + k] == w[k] {
      CharAt(t, w, at, k);
    }
    var start := if w[0] == '-' then 1 else 0;
    var end := Digits(w, start);
    DigitsShift(w, t, at, start);
    assert t[at + start] == w[start];
    FirstDigit(w, start);
    FractionShift(w, t, at, end);
    ExponentShift(w, t, at, Fraction(w, end).value);
  }

  lemma FirstDigit(w: string, at: nat)
    requires at <= |w| && Digits(w, at) > at
    ensures IsDigit(w[at])
  {
  }

  lemma FractionShift(w: string, t: string, at: nat, i: nat)
    requires OccursAt(t, w, at) && Ends(t, at + |w|) && i <= |w| && Fraction(w, i).Some?
    ensures Fraction(t, at + i) == Some(at + Fraction(w, i).value)
  {
    hide Digits;
    if i < |w| {
      CharAt(t, w, at, i);
      if w[i] == '.' {
        DigitsShift(w, t, at, i + 1);
      }
    }
  }

  lemma NoDigits(w: string)
    ensures Digits(w, |w|) == |w|
  {
  }

  lemma ExponentShift(w: string, t: string, at: nat, i: nat)
    requires OccursAt(t, w, at) && Ends(t, at + |w|) && i <= |w| && Exponent(w, i).Some?
    ensures Exponent(t, at + i) == Some(at + Exponent(w, i).value)
  {
    hide Digits;
    if i < |w| {
      CharAt(t, w, at, i);
      if w[i] in "eE" {
        NoDigits(w);
        CharAt(t, w, at, i + 1);
        var start := if w[i + 1] in "+-" then i + 2 else i + 1;
        DigitsShift(w, t, at, start);
      }
    }
  }

  predicate StartsValue(c: char) {
    c == '{' || c == '[' || c == '"' || c == 'n' || c == 't' || c == 'f' || c == '-' || IsDigit(c)
  }

  /** Every value starts with something that is neither blank nor a closing bracket. */
  lemma FirstOfValue(v: Json)
    requires NumbersOk(v)
    ensures Write(v) != "" && StartsValue(Write(v)[0])
  {
    hide Escaped, WriteItems, WriteMembers;
    if v.Num? {
      assert OccursAt(v.text, v.text, 0);
      NumberRead(v.text, 0, v.text);
    }
  }

  lemma NothingToSkip(t: string, at: nat)
    requires at < |t| && !IsBlank(t[at])
    ensures Skip(t, at) == at
  {
  }

  lemma {:induction false} ValueRead(t: string, at: nat, v: Json)
    requires OccursAt(t, Write(v), at) && NumbersOk(v) && (v.Num? ==> Ends(t, at + |Write(v)|))
    ensures Value(t, at) == Some(at + |Write(v)|)
    decreases v, 0
  {
    hide Skip, StringEnd, Members, Elements, Number, WriteItems, WriteMembers, Quote;
    var w := Write(v);
    FirstOfValue(v);
    CharAt(t, w, at, 0);
    match v
    case Null =>
    case Bool(_) =>
    case Num(text) =>
      NumberRead(t, at, text);
    case Str(text) =>
      QuoteRead(t, at, text);
    case Array(items) =>
      assert w == "[" + (WriteItems(items) + "]");
      OccursSplit(t, "[", WriteItems(items) + "]", at);
      ArrayRead(t, at, v);
    case Object(members) =>
      assert w == "{" + (WriteMembers(members) + "}");
      OccursSplit(t, "{", WriteMembers(members) + "}", at);
      ObjectRead(t, at, v);
  }

  lemma {:induction false} ArrayRead(t: string, at: nat, v: Json)
    requires v.Array? && at < |t| && t[at] == '[' && OccursAt(t, WriteItems(v.items) + "]", at + 1) && NumbersOk(v)
    ensures Value(t, at) == Some(at + |WriteItems(v.items)| + 2)
    decreases v.items, 3
  {
    hide StringEnd, Members, Number, Skip, Write;
    var w := WriteItems(v.items) + "]";
    CharAt(t, w, at + 1, 0);
    if v.items == [] {
      NothingToSkip(t, at + 1);
    } else {
      FirstOfValue(v.items[0]);
      NothingToSkip(t, at + 1);
      ItemsRead(t, at + 1, v.items);
    }
  }

  lemma Regroup(a: string, b: string, c: string, d: string)
    ensures a + b + c + d == a + (b + (c + d))
  {
  }

  lemma ItemsUnfold(items: seq<Json>)
    requires items != []
    ensures WriteItems(items) ==
            if |items| == 1 then Write(items[0]) else Write(items[0]) + "," + WriteItems(items[1..])
  {
    hide Write;
  }

  lemma ItemsSplit(items: seq<Json>)
    requires items != [] && forall i :: 0 <= i < |items| ==> NumbersOk(items[i])
    ensures WriteItems(items) + "]" ==
            Write(items[0]) + if |items| == 1 then "]" else "," + (WriteItems(items[1..]) + "]")
    ensures var c := (WriteItems(items) + "]")[0]; !IsBlank(c) && c != ']'
  {
    hide Write, NumbersOk, WriteItems;
    FirstOfValue(items[0]);
    ItemsUnfold(items);
    if |items| > 1 {
      Regroup(Write(items[0]), ",", WriteItems(items[1..]), "]");
    }
  }

  lemma ElementsStep(t: string, at: nat, next: nat)
    requires at <= |t| && Value(t, at) == Some(next) && next < |t|
    ensures t[next] == ']' ==> Elements(t, at) == Some(next + 1)
    ensures t[next] == ',' && next + 1 < |t| && !IsBlank(t[next + 1]) ==> Elements(t, at) == Elements(t, next + 1)
  {
    hide Value;
    assert !IsBlank(t[next]) ==> Skip(t, next) == next;
  }

  lemma {:induction false} ItemsRead(t: string, at: nat, items: seq<Json>)
    requires items != [] && OccursAt(t, WriteItems(items) + "]", at)
    requires forall i :: 0 <= i < |items| ==> NumbersOk(items[i])
    ensures Elements(t, at) == Some(at + |WriteItems(items)| + 1)
    decreases items, 1
  {
    hide Value, Skip, Write, NumbersOk, Elements, WriteItems, OccursAt;
    ItemsSplit(items);
    var first := Write(items[0]);
    var rest := if |items| == 1 then "]" else "," + (WriteItems(items[1..]) + "]");
    assert WriteItems(items) + "]" == first + rest;
    assert rest[0] == if |items| == 1 then ']' else ',';
    OccursSplit(t, first, rest, at);
    var next := at + |first|;
    CharAt(t, rest, next, 0);
    ValueRead(t, at, items[0]);
    ElementsStep(t, at, next);
    assert |WriteItems(items)| + 1 == |first| + |rest|;
    if |items| > 1 {
      var more := WriteItems(items[1..]) + "]";
      assert rest == "," + more;
      OccursSplit(t, ",", more, next);
      ItemsSplit(items[1..]);
      CharAt(t, more, next + 1, 0);
      ItemsRead(t, next + 1, items[1..]);
    }
  }

  lemma {:induction false} ObjectRead(t: string, at: nat, v: Json)
    requires v.Object? && at < |t| && t[at] == '{' && OccursAt(t, WriteMembers(v.members) + "}", at + 1) && NumbersOk(v)
    ensures Value(t, at) == Some(at + |WriteMembers(v.members)| + 2)
    decreases v.members, 4
  {
    hide StringEnd, Elements, Number, Skip, Write;
    var w := WriteMembers(v.members) + "}";
    CharAt(t, w, at + 1, 0);
    NothingToSkip(t, at + 1);
    if v.members != [] {
      assert w[0] == '"';
      MembersRead(t, at + 1, v.members);
    }
  }

  lemma MemberStep(t: string, at: nat, colon: nat)
    requires at < |t| && t[at] == '"' && StringEnd(t, at + 1) == Some(colon)
    requires colon + 1 < |t| && t[colon] == ':' && !IsBlank(t[colon + 1])
    ensures Member(t, at) == Value(t, colon + 1)
  {
    hide Value, StringEnd;
    NothingToSkip(t, colon);
    NothingToSkip(t, colon + 1);
  }

  lemma {:induction false} MemberRead(t: string, at: nat, member: (string, Json))
    requires OccursAt(t, WriteMember(member), at) && NumbersOk(member.1)
    requires Ends(t, at + |WriteMember(member)|)
    ensures Member(t, at) == Some(at + |WriteMember(member)|)
    decreases member, 1
  {
    hide Value, Skip, Write, NumbersOk, StringEnd, Quote, Member, OccursAt;
    var key, value := Quote(member.0), Write(member.1);
    assert WriteMember(member) == key + (":" + value);
    OccursSplit(t, key, ":" + value, at);
    QuoteRead(t, at, member.0);
    var colon := at + |key|;
    OccursSplit(t, ":", value, colon);
    CharAt(t, ":", colon, 0);
    FirstOfValue(member.1);
    CharAt(t, value, colon + 1, 0);
    MemberStep(t, at, colon);
    ValueRead(t, colon + 1, member.1);
  }

  lemma MembersUnfold(members: seq<(string, Json)>)
    requires members != []
    ensures WriteMembers(members) ==
            if |members| == 1 then WriteMember(members[0]) else WriteMember(members[0]) + "," + WriteMembers(members[1..])
  {
    hide WriteMember;
  }

  lemma MembersSplit(members: seq<(string, Json)>)
    requires members != []
    ensures WriteMembers(members) + "}" ==
            WriteMember(members[0]) + if |members| == 1 then "}" else "," + (WriteMembers(members[1..]) + "}")
    ensures (WriteMembers(members) + "}")[0] == '"'
  {
    hide WriteMember, WriteMembers;
    FirstOfMember(members[0]);
    MembersUnfold(members);
    if |members| > 1 {
      Regroup(WriteMember(members[0]), ",", WriteMembers(members[1..]), "}");
    }
  }

  lemma MembersStep(t: string, at: nat, next: nat)
    requires at <= |t| && Member(t, at) == Some(next) && next < |t|
    ensures t[next] == '}' ==> Members(t, at) == Some(next + 1)
    ensures t[next] == ',' && next + 1 < |t| && !IsBlank(t[next + 1]) ==> Members(t, at) == Members(t, next + 1)
  {
    hide Member;
    assert !IsBlank(t[next]) ==> Skip(t, next) == next;
  }

  lemma {:induction false} MembersRead(t: string, at: nat, members: seq<(string, Json)>)
    requires members != [] && OccursAt(t, WriteMembers(members) + "}", at)
    requires forall i :: 0 <= i < |members| ==> NumbersOk(members[i].1)
    ensures Members(t, at) == Some(at + |WriteMembers(members)| + 1)
    decreases members, 2
  {
    hide Member, Skip, WriteMember, NumbersOk, Members, WriteMembers, OccursAt;
    MembersSplit(members);
    var first := WriteMember(members[0]);
    var rest := if |members| == 1 then "}" else "," + (WriteMembers(members[1..]) + "}");
    OccursSplit(t, first, rest, at);
    var next := at + |first|;
    CharAt(t, rest, next, 0);
    MemberRead(t, at, members[0]);
    MembersStep(t, at, next);
    assert |WriteMembers(members)| + 1 == |first| + |rest|;
    if |members| > 1 {
      var more := WriteMembers(members[1..]) + "}";
      OccursSplit(t, ",", more, next);
      MembersSplit(members[1..]);
      CharAt(t, more, next + 1, 0);
      MembersRead(t, next + 1, members[1..]);
    }
  }

  lemma FirstOfMember(member: (string, Json))
    ensures WriteMember(member) != "" && WriteMember(member)[0] == '"'
  {
  }

  // ---------------------------------------------------------------------
  // Main results
  // ---------------------------------------------------------------------

  /** Whatever the program writes is a JSON text. */
  lemma WrittenValuesAreTexts(v: Json)
    requires NumbersOk(v)
    ensures IsText(Write(v))
  {
    hide Skip, Value, Write, NumbersOk;
    var w := Write(v);
    FirstOfValue(v);
    NothingToSkip(w, 0);
    assert w[0..|w|] == w;
    ValueRead(w, 0, v);
    EndOfText(w);
  }

  lemma EndOfText(t: string)
    ensures Skip(t, |t|) == |t|
  {
  }

  /** An object that is cut off anywhere is no JSON text, so a reader that waits for the end of its
      input never mistakes the beginning of a message for a message. */
  lemma BeginningsAreNoTexts(v: Json, n: nat)
    requires v.Object? && NumbersOk(v) && n < |Write(v)|
    ensures !IsText(Write(v)[..n])
  {
    hide Value, Skip, NumbersOk, WriteMembers;
    var w := Write(v);
    var p := w[..n];
    assert w[0..|w|] == w && w[0] == '{';
    ValueRead(w, 0, v);
    if n > 0 {
      NothingToSkip(p, 0);
      if Value(p, 0).Some? {
        ValueStays(p, w, 0);
      }
    } else {
      EndOfText(p);
      NoValue(p);
    }
  }

  lemma NoValue(t: string)
    ensures Value(t, |t|) == None
  {
  }

  /** It takes the braces: a number that is cut off may still be a text. */
  lemma BeginningsOfNumbersMayBeTexts()
    ensures NumbersOk(Num("12")) && IsText(Write(Num("12"))[..1])
  {
    assert Digits("12", 1) == 2 && Digits("12", 0) == 2;
    assert Number("12", 0) == Some(2);
    assert "12"[..1] == "1";
    assert Digits("1", 0) == 1;
    assert Number("1", 0) == Some(1);
  }
}
