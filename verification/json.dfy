/**
 * The part of `json.loads` (RFC 8259) the core depends on: a document that is a
 * single flat object whose member values are strings or `null`. Any other
 * document is rejected, which is how the callers see a `json.loads` failure.
 */
module Json {
  import opened Wrappers
  import PyStr

  datatype Value = Str(s: string) | Null

  /** A decoded object; a repeated key keeps the value that came last, as `json.loads` does. */
  type Object = map<string, Value>

  /** The four insignificant whitespace characters of section 2 of RFC 8259. */
  predicate IsWs(c: char) {
    c == ' ' || c == '\t' || c == '\n' || c == '\r'
  }

  /** The end of the whitespace run starting at `i`. */
  function SkipWs(t: string, i: nat): (j: nat)
    requires i <= |t|
    ensures i <= j <= |t|
    ensures j < |t| ==> !IsWs(t[j])
    decreases |t| - i
  {
    if i < |t| && IsWs(t[i]) then SkipWs(t, i + 1) else i
  }

  /** No whitespace to skip at `i`. */
  lemma SkipWsNone(t: string, i: nat)
    requires i == |t| || (i < |t| && !IsWs(t[i]))
    ensures SkipWs(t, i) == i
  {
  }

  /** One blank to skip at `i`. */
  lemma SkipWsBlank(t: string, i: nat)
    requires i + 1 < |t| && t[i] == ' ' && !IsWs(t[i + 1])
    ensures SkipWs(t, i) == i + 1 && SkipWs(t, i + 1) == i + 1
  {
    SkipWsNone(t, i + 1);
  }

  /** The character a two-character escape `\c` stands for (section 7 of RFC 8259); `\u` escapes are not handled. */
  function Unescape(c: char): Option<char> {
    match c
    case '"' => Some('"')
    case '\\' => Some('\\')
    case '/' => Some('/')
    case 'b' => Some('\U{8}')
    case 'f' => Some('\U{C}')
    case 'n' => Some('\n')
    case 'r' => Some('\r')
    case 't' => Some('\t')
    case _ => None
  }

  /**
   * The rest of a string literal whose opening quote precedes `i`: the decoded
   * characters and the index just past the closing quote. An unescaped control
   * character, a bad escape or a missing closing quote is an error.
   */
  function ParseChars(t: string, i: nat): (r: Option<(string, nat)>)
    requires i <= |t|
    ensures r.Some? ==> i < r.value.1 <= |t|
    decreases |t| - i
  {
    if i == |t| then None
    else if t[i] == '"' then Some(("", i + 1))
    else if t[i] < ' ' then None
    else if t[i] == '\\' then
      if i + 1 == |t| then None
      else match Unescape(t[i + 1])
        case None => None
        case Some(c) =>
          match ParseChars(t, i + 2)
          case None => None
          case Some((s, j)) => Some(([c] + s, j))
    else
      match ParseChars(t, i + 1)
      case None => None
      case Some((s, j)) => Some(([t[i]] + s, j))
  }

  /** A member value starting at `i`: a string literal or the literal `null`. */
  function ParseValue(t: string, i: nat): (r: Option<(Value, nat)>)
    requires i <= |t|
    ensures r.Some? ==> i < r.value.1 <= |t|
  {
    if i < |t| && t[i] == '"' then
      match ParseChars(t, i + 1)
      case None => None
      case Some((s, j)) => Some((Str(s), j))
    else if i + 4 <= |t| && t[i..i + 4] == "null" then Some((Null, i + 4))
    else None
  }

  /**
   * One member starting at the key's opening quote at `i`: the key, the value and
   * the index of the first non-whitespace character after the value.
   */
  function ParseMember(t: string, i: nat): (r: Option<(string, Value, nat)>)
    requires i <= |t|
    ensures r.Some? ==> i < r.value.2 <= |t|
  {
    if i < |t| && t[i] == '"' then
      match ParseChars(t, i + 1)
      case None => None
      case Some((k, j)) =>
        var j1 := SkipWs(t, j);
        if j1 < |t| && t[j1] == ':' then
          match ParseValue(t, SkipWs(t, j1 + 1))
          case None => None
          case Some((v, j3)) => Some((k, v, SkipWs(t, j3)))
        else None
    else None
  }

  /**
   * The members of an object from the key at `i` up to and including the closing
   * brace, added to `acc`; the index returned is just past the brace. A comma
   * must be followed by another member, so a trailing comma is an error.
   */
  function ParseMembers(t: string, i: nat, acc: Object): (r: Option<(Object, nat)>)
    requires i <= |t|
    ensures r.Some? ==> i < r.value.1 <= |t|
    decreases |t| - i
  {
    match ParseMember(t, i)
    case None => None
    case Some((k, v, j)) =>
      if j < |t| && t[j] == ',' then ParseMembers(t, SkipWs(t, j + 1), acc[k := v])
      else if j < |t| && t[j] == '}' then Some((acc[k := v], j + 1))
      else None
  }

  /**
   * `json.loads(t)` followed by the use of the result as a dictionary: the object
   * when `t` is exactly one flat object (whitespace around it allowed), otherwise
   * no value.
   */
  function Parse(t: string): (r: Option<Object>)
  {
    var i := SkipWs(t, 0);
    if i < |t| && t[i] == '{' then
      var i1 := SkipWs(t, i + 1);
      var body: Option<(Object, nat)> :=
        if i1 < |t| && t[i1] == '}' then Some((map[], i1 + 1))
        else ParseMembers(t, i1, map[]);
      match body
      case None => None
      case Some((obj, j)) => if SkipWs(t, j) == |t| then Some(obj) else None
    else None
  }

  /** `data.get(key)` for a string-valued key: a missing key and a JSON `null` are both `None`. */
  function Get(obj: Object, key: string): (r: Option<string>)
    ensures r.Some? <==> key in obj && obj[key].Str?
    ensures r.Some? ==> obj[key] == Str(r.value)
  {
    if key in obj && obj[key].Str? then Some(obj[key].s) else None
  }

  // ----- Rendering, the partner of Parse -----

  /** Characters a string value may hold for the rendering below: no quote, no backslash, no control character other than a line break. */
  predicate Encodable(v: string) {
    forall k :: 0 <= k < |v| ==> v[k] != '"' && v[k] != '\\' && (v[k] >= ' ' || v[k] == '\n')
  }

  predicate AllEncodable(pairs: seq<(string, string)>) {
    forall n :: 0 <= n < |pairs| ==> Encodable(pairs[n].0) && Encodable(pairs[n].1)
  }

  /** The JSON string literal for `v`, line breaks written as `\n`. */
  function Quote(v: string): string {
    "\"" + PyStr.EscapeNewlines(v) + "\""
  }

  function MemberText(key: string, v: string): string {
    Quote(key) + ": " + Quote(v)
  }

  function MembersText(pairs: seq<(string, string)>): string
    requires |pairs| >= 1
  {
    MemberText(pairs[0].0, pairs[0].1) + if |pairs| == 1 then "" else ", " + MembersText(pairs[1..])
  }

  /** The single-line JSON text of an object with the given string members, in order. */
  function ObjectText(pairs: seq<(string, string)>): string {
    "{" + (if pairs == [] then "" else MembersText(pairs)) + "}"
  }

  /** The value of the last member named `key`, if any. */
  function LastValue(pairs: seq<(string, string)>, key: string): Option<string> {
    if pairs == [] then None
    else
      var later := LastValue(pairs[1..], key);
      if later.Some? then later else if pairs[0].0 == key then Some(pairs[0].1) else None
  }

  /** The object after adding the members left to right. */
  function Collect(acc: Object, pairs: seq<(string, string)>): Object
    decreases |pairs|
  {
    if pairs == [] then acc else Collect(acc[pairs[0].0 := Str(pairs[0].1)], pairs[1..])
  }

  /** After collecting, a key reads as its last member's value, or as before when no member names it. */
  lemma {:induction false} CollectGet(acc: Object, pairs: seq<(string, string)>, key: string)
    ensures Get(Collect(acc, pairs), key) == if LastValue(pairs, key).Some? then LastValue(pairs, key) else Get(acc, key)
    decreases |pairs|
  {
    if pairs != [] {
      CollectGet(acc[pairs[0].0 := Str(pairs[0].1)], pairs[1..], key);
    }
  }

  /** `x` occurs in `t` starting at index `i`. */
  predicate At(t: string, i: nat, x: string) {
    i + |x| <= |t| && t[i..i + |x|] == x
  }

  lemma AtAppend(t: string, i: nat, x: string, y: string)
    requires At(t, i, x + y)
    ensures At(t, i, x) && At(t, i + |x|, y)
  {
    assert t[i..i + |x|] == (x + y)[..|x|];
    assert t[i + |x|..i + |x| + |y|] == (x + y)[|x|..];
  }

  lemma AtChar(t: string, i: nat, x: string, k: nat)
    requires At(t, i, x) && k < |x|
    ensures t[i + k] == x[k]
  {
    assert t[i..i + |x|][k] == x[k];
  }

  /** The string body at `i` reads as `s` and ends just before `j`. */
  predicate CharsAt(t: string, i: nat, s: string, j: nat) {
    i <= |t| && ParseChars(t, i).Some? && ParseChars(t, i).value.0 == s && ParseChars(t, i).value.1 == j
  }

  /** The value at `i` reads as `v` and ends just before `j`. */
  predicate ValueAt(t: string, i: nat, v: Value, j: nat) {
    i <= |t| && ParseValue(t, i).Some? && ParseValue(t, i).value.0 == v && ParseValue(t, i).value.1 == j
  }

  /** The member at `i` reads as `k` and `v` and is followed, after any whitespace, by index `j`. */
  predicate MemberAt(t: string, i: nat, k: string, v: Value, j: nat) {
    i <= |t| && ParseMember(t, i).Some? &&
    ParseMember(t, i).value.0 == k && ParseMember(t, i).value.1 == v && ParseMember(t, i).value.2 == j
  }

  /** One ordinary character of a string body is kept as it is. */
  lemma ParseCharsPlainStep(t: string, i: nat, rest: string, j: nat)
    requires i < |t| && t[i] != '"' && t[i] != '\\' && t[i] >= ' '
    requires CharsAt(t, i + 1, rest, j)
    ensures CharsAt(t, i, [t[i]] + rest, j)
  {
  }

  /** The escape `\n` in a string body stands for a line break. */
  lemma ParseCharsNewlineStep(t: string, i: nat, rest: string, j: nat)
    requires i + 1 < |t| && t[i] == '\\' && t[i + 1] == 'n'
    requires CharsAt(t, i + 2, rest, j)
    ensures CharsAt(t, i, ['\n'] + rest, j)
  {
    assert Unescape(t[i + 1]) == Some('\n');
  }

  /** An encoded string body followed by a closing quote decodes to the original characters. */
  lemma {:induction false} ParseCharsEncoded(t: string, i: nat, v: string)
    requires Encodable(v)
    requires At(t, i, PyStr.EscapeNewlines(v) + "\"")
    ensures CharsAt(t, i, v, i + |PyStr.EscapeNewlines(v)| + 1)
    decreases |v|
  {
    var ev := PyStr.EscapeNewlines(v);
    if v == [] {
      AtChar(t, i, ev + "\"", 0);
    } else {
      var rest := v[1..];
      var er := PyStr.EscapeNewlines(rest);
      assert Encodable(rest) by { assert forall k :: 0 <= k < |rest| ==> rest[k] == v[k + 1]; }
      assert v == [v[0]] + rest;
      var head := if v[0] == '\n' then "\\n" else [v[0]];
      assert ev + "\"" == head + (er + "\"");
      AtAppend(t, i, head, er + "\"");
      ParseCharsEncoded(t, i + |head|, rest);
      if v[0] == '\n' {
        AtChar(t, i, head, 0);
        AtChar(t, i, head, 1);
        ParseCharsNewlineStep(t, i, rest, i + |head| + |er| + 1);
      } else {
        AtChar(t, i, head, 0);
        ParseCharsPlainStep(t, i, rest, i + |head| + |er| + 1);
      }
    }
  }

  /** A string literal rendered by `Quote` decodes to its content. */
  lemma ParseQuoted(t: string, i: nat, v: string)
    requires Encodable(v) && At(t, i, Quote(v))
    ensures i < |t| && t[i] == '"'
    ensures CharsAt(t, i + 1, v, i + |Quote(v)|)
  {
    var ev := PyStr.EscapeNewlines(v);
    assert Quote(v) == "\"" + (ev + "\"");
    AtAppend(t, i, "\"", ev + "\"");
    AtChar(t, i, "\"", 0);
    ParseCharsEncoded(t, i + 1, v);
  }

  /** A string literal at `i` is a string value. */
  lemma ParseValueStep(t: string, i: nat, s: string, j: nat)
    requires i < |t| && t[i] == '"' && CharsAt(t, i + 1, s, j)
    ensures ValueAt(t, i, Str(s), j)
  {
  }

  /** A key, a colon after one blank and a value make one member. */
  lemma ParseMemberStep(t: string, i: nat, k: string, j: nat, v: Value, j3: nat)
    requires i < |t| && t[i] == '"' && CharsAt(t, i + 1, k, j)
    requires j + 2 < |t| && t[j] == ':' && t[j + 1] == ' ' && !IsWs(t[j + 2])
    requires ValueAt(t, j + 2, v, j3)
    ensures MemberAt(t, i, k, v, SkipWs(t, j3))
  {
    SkipWsNone(t, j);
    SkipWsBlank(t, j + 1);
  }

  /** A member followed by a closing brace ends the members. */
  lemma ParseMembersLast(t: string, i: nat, acc: Object, k: string, v: Value, j: nat)
    requires MemberAt(t, i, k, v, j)
    requires j < |t| && t[j] == '}'
    ensures ParseMembers(t, i, acc).Some?
    ensures ParseMembers(t, i, acc).value.0 == acc[k := v] && ParseMembers(t, i, acc).value.1 == j + 1
  {
  }

  /** A member followed by a comma and one blank continues with the next member. */
  lemma ParseMembersNext(t: string, i: nat, acc: Object, k: string, v: Value, j: nat)
    requires MemberAt(t, i, k, v, j)
    requires j + 2 < |t| && t[j] == ',' && t[j + 1] == ' ' && !IsWs(t[j + 2])
    ensures ParseMembers(t, i, acc) == ParseMembers(t, j + 2, acc[k := v])
  {
    SkipWsBlank(t, j + 1);
  }

  /** A quoted key, a colon and one blank, and a quoted value followed by a non-blank character make one member. */
  lemma ParseMemberParts(t: string, i: nat, k: string, j: nat, v: string, e: nat)
    requires i < |t| && t[i] == '"' && CharsAt(t, i + 1, k, j)
    requires j + 2 < |t| && t[j] == ':' && t[j + 1] == ' ' && t[j + 2] == '"'
    requires CharsAt(t, j + 3, v, e) && e < |t| && !IsWs(t[e])
    ensures MemberAt(t, i, k, Str(v), e)
  {
    ParseValueStep(t, j + 2, v, e);
    ParseMemberStep(t, i, k, j, Str(v), e);
    SkipWsNone(t, e);
  }

  /** The pieces of a rendered member: the quoted key, a colon and a blank, the quoted value. */
  lemma MemberTextPieces(t: string, i: nat, key: string, v: string)
    requires At(t, i, MemberText(key, v))
    ensures At(t, i, Quote(key))
    ensures i + |Quote(key)| + 1 < |t| && t[i + |Quote(key)|] == ':' && t[i + |Quote(key)| + 1] == ' '
    ensures At(t, i + |Quote(key)| + 2, Quote(v))
    ensures |MemberText(key, v)| == |Quote(key)| + 2 + |Quote(v)|
  {
    var qk, qv := Quote(key), Quote(v);
    assert MemberText(key, v) == qk + (": " + qv);
    AtAppend(t, i, qk, ": " + qv);
    var j := i + |qk|;
    AtAppend(t, j, ": ", qv);
    AtChar(t, j, ": ", 0);
    AtChar(t, j, ": ", 1);
  }

  /** A quoted key, a colon and a blank, and a quoted value followed by a non-blank character make one member. */
  lemma ParseQuotedMember(t: string, i: nat, key: string, v: string, e: nat)
    requires Encodable(key) && Encodable(v) && At(t, i, Quote(key))
    requires i + |Quote(key)| + 1 < |t| && t[i + |Quote(key)|] == ':' && t[i + |Quote(key)| + 1] == ' '
    requires At(t, i + |Quote(key)| + 2, Quote(v))
    requires e == i + |Quote(key)| + 2 + |Quote(v)| && e < |t| && !IsWs(t[e])
    ensures MemberAt(t, i, key, Str(v), e)
  {
    var j := i + |Quote(key)|;
    ParseQuoted(t, i, key);
    ParseQuoted(t, j + 2, v);
    ParseMemberParts(t, i, key, j, v, e);
  }

  /** A rendered member followed by a non-blank character is parsed back into its key and value. */
  lemma ParseMemberText(t: string, i: nat, key: string, v: string)
    requires Encodable(key) && Encodable(v)
    requires At(t, i, MemberText(key, v))
    requires i + |MemberText(key, v)| < |t| && !IsWs(t[i + |MemberText(key, v)|])
    ensures MemberAt(t, i, key, Str(v), i + |MemberText(key, v)|)
  {
    MemberTextPieces(t, i, key, v);
    ParseQuotedMember(t, i, key, v, i + |MemberText(key, v)|);
  }

  /** The tail of an encodable sequence of members is encodable. */
  lemma AllEncodableTail(pairs: seq<(string, string)>)
    requires |pairs| >= 1 && AllEncodable(pairs)
    ensures Encodable(pairs[0].0) && Encodable(pairs[0].1) && AllEncodable(pairs[1..])
  {
    assert forall n :: 0 <= n < |pairs| - 1 ==> pairs[1..][n] == pairs[n + 1];
  }

  /** Where the member after the first one starts, when the members are rendered from `i`. */
  function NextAt(i: nat, pairs: seq<(string, string)>): nat
    requires |pairs| >= 1
  {
    i + |MemberText(pairs[0].0, pairs[0].1)| + 2
  }

  /** The last rendered member followed by the brace closes the members. */
  lemma MembersTextLast(t: string, i: nat, pairs: seq<(string, string)>, acc: Object)
    requires |pairs| == 1 && AllEncodable(pairs) && At(t, i, MembersText(pairs) + "}")
    ensures ParseMembers(t, i, acc).Some?
    ensures ParseMembers(t, i, acc).value.0 == Collect(acc, pairs)
    ensures ParseMembers(t, i, acc).value.1 == i + |MembersText(pairs)| + 1
  {
    var key, v := pairs[0].0, pairs[0].1;
    var m := MemberText(key, v);
    AllEncodableTail(pairs);
    assert MembersText(pairs) + "}" == m + "}";
    AtAppend(t, i, m, "}");
    AtChar(t, i + |m|, "}", 0);
    ParseMemberText(t, i, key, v);
    ParseMembersLast(t, i, acc, key, Str(v), i + |m|);
    assert Collect(acc, pairs) == Collect(acc[key := Str(v)], []);
  }

  /** A rendered member followed by a comma and a blank continues with the next rendered member. */
  lemma MembersTextNext(t: string, i: nat, pairs: seq<(string, string)>, acc: Object)
    requires |pairs| >= 2 && AllEncodable(pairs) && At(t, i, MembersText(pairs) + "}")
    ensures ParseMembers(t, i, acc) == ParseMembers(t, NextAt(i, pairs), acc[pairs[0].0 := Str(pairs[0].1)])
    ensures AllEncodable(pairs[1..]) && At(t, NextAt(i, pairs), MembersText(pairs[1..]) + "}")
  {
    var key, v := pairs[0].0, pairs[0].1;
    var m := MemberText(key, v);
    var e := i + |m|;
    var mt := MembersText(pairs[1..]);
    AllEncodableTail(pairs);
    assert MembersText(pairs) + "}" == m + (", " + (mt + "}"));
    AtAppend(t, i, m, ", " + (mt + "}"));
    AtAppend(t, e, ", ", mt + "}");
    AtChar(t, e, ", ", 0);
    AtChar(t, e, ", ", 1);
    assert pairs[1..][0] == pairs[1];
    assert mt[0] == '"';
    AtChar(t, e + 2, mt + "}", 0);
    ParseMemberText(t, i, key, v);
    ParseMembersNext(t, i, acc, key, Str(v), e);
  }

  /** Rendered members followed by the brace are parsed back into the collected object. */
  lemma {:induction false} ParseMembersText(t: string, i: nat, pairs: seq<(string, string)>, acc: Object)
    requires |pairs| >= 1 && AllEncodable(pairs) && At(t, i, MembersText(pairs) + "}")
    ensures ParseMembers(t, i, acc).Some?
    ensures ParseMembers(t, i, acc).value.0 == Collect(acc, pairs)
    ensures ParseMembers(t, i, acc).value.1 == i + |MembersText(pairs)| + 1
    decreases |pairs|
  {
    if |pairs| == 1 {
      MembersTextLast(t, i, pairs, acc);
    } else {
      MembersTextNext(t, i, pairs, acc);
      ParseMembersText(t, NextAt(i, pairs), pairs[1..], acc[pairs[0].0 := Str(pairs[0].1)]);
    }
  }

  /** An object whose members parse up to index `j` is accepted exactly when only whitespace follows. */
  lemma ParseStep(t: string, obj: Object, j: nat)
    requires 2 <= |t| && t[0] == '{'
    requires (t[1] == '}' && obj == map[] && j == 2) ||
             (t[1] == '"' && ParseMembers(t, 1, map[]).Some? &&
              ParseMembers(t, 1, map[]).value.0 == obj && ParseMembers(t, 1, map[]).value.1 == j)
    ensures Parse(t).Some? <==> SkipWs(t, j) == |t|
    ensures Parse(t).Some? ==> Parse(t).value == obj
  {
    SkipWsNone(t, 0);
    SkipWsNone(t, 1);
  }

  /** The facts `ParseStep` needs, read off a rendered object at the start of `t`. */
  lemma ObjectTextStart(t: string, pairs: seq<(string, string)>)
    requires AllEncodable(pairs) && At(t, 0, ObjectText(pairs))
    ensures 2 <= |t| && t[0] == '{'
    ensures pairs == [] ==> t[1] == '}' && |ObjectText(pairs)| == 2
    ensures pairs != [] ==>
      (t[1] == '"' && ParseMembers(t, 1, map[]).Some? &&
       ParseMembers(t, 1, map[]).value.0 == Collect(map[], pairs) &&
       ParseMembers(t, 1, map[]).value.1 == |ObjectText(pairs)|)
  {
    var o := ObjectText(pairs);
    AtChar(t, 0, o, 0);
    if pairs == [] {
      assert o == "{}";
      AtChar(t, 0, o, 1);
    } else {
      var mt := MembersText(pairs);
      assert o == "{" + (mt + "}");
      AtAppend(t, 0, "{", mt + "}");
      assert mt[0] == '"';
      AtChar(t, 1, mt + "}", 0);
      ParseMembersText(t, 1, pairs, map[]);
    }
  }

  /**
   * A document that begins with a rendered object is that object when only
   * whitespace follows it, and is rejected when anything else follows.
   */
  lemma ParseObjectAt(t: string, pairs: seq<(string, string)>)
    requires AllEncodable(pairs) && At(t, 0, ObjectText(pairs))
    ensures Parse(t).Some? <==> SkipWs(t, |ObjectText(pairs)|) == |t|
    ensures Parse(t).Some? ==> Parse(t).value == Collect(map[], pairs)
  {
    ObjectTextStart(t, pairs);
    ParseStep(t, Collect(map[], pairs), |ObjectText(pairs)|);
  }

  /** Round trip: parsing the rendering of an object yields the object built from its members. */
  lemma ParseObjectText(pairs: seq<(string, string)>)
    requires AllEncodable(pairs)
    ensures Parse(ObjectText(pairs)).Some? && Parse(ObjectText(pairs)).value == Collect(map[], pairs)
  {
    var t := ObjectText(pairs);
    ParseObjectAt(t, pairs);
    SkipWsNone(t, |t|);
  }

  /** An object whose first member does not start with a quote, such as one opened by an escaped line break, is rejected. */
  lemma ParseRejectsBadStart(t: string)
    requires 2 <= |t| && t[0] == '{' && t[1] != '"' && t[1] != '}' && !IsWs(t[1])
    ensures Parse(t).None?
  {
    SkipWsNone(t, 0);
    SkipWsNone(t, 1);
  }

  /** A first member whose value is neither a string nor `null`, such as Python's `None`, makes the object invalid. */
  lemma ParseRejectsBadValue(t: string, k: string, j: nat)
    requires 2 <= |t| && t[0] == '{' && t[1] == '"' && CharsAt(t, 2, k, j)
    requires j + 2 < |t| && t[j] == ':' && t[j + 1] == ' '
    requires t[j + 2] != '"' && t[j + 2] != 'n' && !IsWs(t[j + 2])
    ensures Parse(t).None?
  {
    SkipWsNone(t, j);
    SkipWsBlank(t, j + 1);
    assert ParseValue(t, j + 2).None?;
    assert ParseMember(t, 1).None?;
    assert ParseMembers(t, 1, map[]).None?;
    ParseMembersFail(t);
  }

  /** A string literal that reaches a raw control character, such as a line break, before its closing quote is invalid. */
  lemma {:induction false} ParseCharsRejectsControl(t: string, i: nat, n: nat)
    requires i <= n < |t| && t[n] < ' '
    requires forall k :: i <= k < n ==> t[k] != '"' && t[k] != '\\' && t[k] >= ' '
    ensures ParseChars(t, i).None?
    decreases n - i
  {
    if i < n {
      ParseCharsRejectsControl(t, i + 1, n);
    }
  }

  /** A first member whose string value fails to parse makes the object invalid. */
  lemma {:induction false} ParseRejectsBadString(t: string, k: string, j: nat)
    requires 2 <= |t| && t[0] == '{' && t[1] == '"' && CharsAt(t, 2, k, j)
    requires j + 3 <= |t| && t[j] == ':' && t[j + 1] == ' ' && t[j + 2] == '"'
    requires ParseChars(t, j + 3).None?
    ensures Parse(t).None?
  {
    SkipWsNone(t, j);
    SkipWsBlank(t, j + 1);
    assert ParseValue(t, j + 2).None?;
    assert ParseMember(t, 1).None?;
    assert ParseMembers(t, 1, map[]).None?;
    ParseMembersFail(t);
  }

  /** A member followed by a comma and then by no further member makes the object invalid. */
  lemma ParseRejectsCommaStep(t: string, k: string, v: Value, j: nat)
    requires 2 <= |t| && t[0] == '{' && t[1] == '"' && MemberAt(t, 1, k, v, j)
    requires j < |t| && t[j] == ','
    requires var c := SkipWs(t, j + 1); c == |t| || t[c] != '"'
    ensures Parse(t).None?
  {
    var c := SkipWs(t, j + 1);
    assert ParseMember(t, c).None?;
    assert ParseMembers(t, c, map[][k := v]).None?;
    assert ParseMembers(t, 1, map[]).None?;
    ParseMembersFail(t);
  }

  /** An object whose members fail to parse fails to parse. */
  lemma ParseMembersFail(t: string)
    requires 2 <= |t| && t[0] == '{' && t[1] == '"' && ParseMembers(t, 1, map[]).None?
    ensures Parse(t).None?
  {
    SkipWsNone(t, 0);
    SkipWsNone(t, 1);
  }

  /** The facts `ParseRejectsCommaStep` needs, read off a rendered member and a comma at the start of `t`. */
  lemma MemberCommaStart(t: string, key: string, v: string)
    requires Encodable(key) && Encodable(v)
    requires At(t, 0, "{" + MemberText(key, v) + ",")
    ensures 2 <= |t| && t[0] == '{' && t[1] == '"'
    ensures MemberAt(t, 1, key, Str(v), |MemberText(key, v)| + 1)
    ensures t[|MemberText(key, v)| + 1] == ','
  {
    var m := MemberText(key, v);
    AtAppend(t, 0, "{" + m, ",");
    AtAppend(t, 0, "{", m);
    AtChar(t, 0, "{", 0);
    AtChar(t, |m| + 1, ",", 0);
    assert m[0] == '"';
    AtChar(t, 1, m, 0);
    ParseMemberText(t, 1, key, v);
  }

  /** A comma after the last member, with no member after it, is rejected (section 4 of RFC 8259). */
  lemma {:induction false} ParseRejectsTrailingComma(t: string, key: string, v: string)
    requires Encodable(key) && Encodable(v)
    requires At(t, 0, "{" + MemberText(key, v) + ",")
    requires var c := SkipWs(t, |MemberText(key, v)| + 2); c == |t| || t[c] != '"'
    ensures Parse(t).None?
  {
    MemberCommaStart(t, key, v);
    ParseRejectsCommaStep(t, key, Str(v), |MemberText(key, v)| + 1);
  }
}
