/** The Guacamole wire format: the instruction encoder and the split-based parser of the program, against
    the length-directed decoder that the protocol prescribes (Apache Guacamole manual, chapter "The
    Guacamole protocol"). A string here is a sequence of code points. */
module Guacamole {
  import opened Wrappers
  import opened Text
  import Utf8

  // ---------- encoding ----------

  /** len of a Go string counts the bytes of its UTF-8 form. */
  function ByteLen(s: string): (n: nat)
    ensures n >= |s|
  {
    if s == "" then 0 else ByteLen(s[..|s| - 1]) + Utf8.RuneLen(s[|s| - 1] as int)
  }

  predicate Ascii(s: string) {
    forall k :: 0 <= k < |s| ==> s[k] as int < 128
  }

  /** Bytes and code points agree exactly on ASCII. */
  lemma {:induction false} ByteLenAscii(s: string)
    ensures ByteLen(s) == |s| <==> Ascii(s)
  {
    if s == "" {
    } else {
      ByteLenAscii(s[..|s| - 1]);
    }
  }

  function Element(v: string): (e: string) {
    Itoa(ByteLen(v)) + "." + v
  }

  function Elements(parts: seq<string>): (es: seq<string>)
    ensures |es| == |parts|
  {
    seq(|parts|, i requires 0 <= i < |parts| => Element(parts[i]))
  }

  /** An instruction as its opcode and arguments in one list. */
  function Form(parts: seq<string>): string {
    Join(Elements(parts), ",") + ";"
  }

  class Instruction {
    const opcode: string
    const args: seq<string>
    var protocolForm: string

    constructor (opcode: string, args: seq<string>)
      ensures this.opcode == opcode && this.args == args && protocolForm == ""
    {
      this.opcode, this.args, protocolForm := opcode, args, "";
    }

    ghost predicate Valid()
      reads this
    {
      protocolForm == "" || protocolForm == Form([opcode] + args)
    }

    /** The form is built once and kept. */
    method String() returns (s: string)
      requires Valid()
      modifies this
      ensures Valid() && s == protocolForm == Form([opcode] + args)
    {
      if |protocolForm| > 0 {
        return protocolForm;
      }
      protocolForm := Element(opcode);
      ghost var parts := [opcode] + args;
      for i := 0 to |args|
        invariant protocolForm == Join(Elements(parts[..i + 1]), ",")
      {
        protocolForm := protocolForm + "," + Element(args[i]);
        assert Elements(parts[..i + 2]) == Elements(parts[..i + 1]) + [Element(args[i])];
        JoinSnoc(Elements(parts[..i + 1]), Element(args[i]), ",");
      }
      assert parts[..|args| + 1] == parts;
      protocolForm := protocolForm + ";";
      return protocolForm;
    }
  }

  // ---------- the protocol's decoder ----------

  /** One element: decimal length, dot, that many code points. Returns the value and what follows. */
  function DecodeElement(s: string): (r: Option<(string, string)>)
    ensures r.Some? ==> |r.value.1| < |s|
  {
    var digits := Split(s, '.')[0];
    if |digits| == |s| then None
    else
      var rest := s[|digits| + 1..];
      match ParseNat(digits)
      case None => None
      case Some(n) => if n > |rest| then None else Some((rest[..n], rest[n..]))
  }

  /** One instruction: elements separated by commas, ended by a semicolon. */
  function DecodeInstruction(s: string): Option<(seq<string>, string)>
    decreases |s|
  {
    match DecodeElement(s)
    case None => None
    case Some((v, rest)) =>
      if rest == "" then None
      else if rest[0] == ';' then Some(([v], rest[1..]))
      else if rest[0] != ',' then None
      else
        match DecodeInstruction(rest[1..])
        case None => None
        case Some((vs, rest')) => Some(([v] + vs, rest'))
  }

  function DecodeStream(s: string): Option<seq<seq<string>>>
    decreases |s|
  {
    if s == "" then Some([])
    else
      match DecodeInstruction(s)
      case None => None
      case Some((parts, rest)) =>
        if |rest| >= |s| then None
        else
          match DecodeStream(rest)
          case None => None
          case Some(list) => Some([parts] + list)
  }

  function Stream(list: seq<seq<string>>): string {
    if list == [] then "" else Form(list[0]) + Stream(list[1..])
  }

  predicate AllAscii(parts: seq<string>) {
    forall k :: 0 <= k < |parts| ==> Ascii(parts[k])
  }

  lemma DecodeElementOf(v: string, rest: string)
    ensures DecodeElement(Element(v) + rest)
            == if ByteLen(v) > |v| + |rest| then None else Some(((v + rest)[..ByteLen(v)], (v + rest)[ByteLen(v)..]))
  {
    var n := ByteLen(v);
    assert Element(v) + rest == Itoa(n) + ['.'] + (v + rest);
    ParseItoa(n);
    DecodeAfterDigits(Itoa(n), n, v + rest);
  }

  lemma DecodeAfterDigits(digits: string, n: nat, body: string)
    requires '.' !in digits && ParseNat(digits) == Some(n)
    ensures DecodeElement(digits + ['.'] + body) == if n > |body| then None else Some((body[..n], body[n..]))
  {
    var s := digits + ['.'] + body;
    SplitFirst(digits, '.', body);
    assert s[|digits| + 1..] == body;
  }

  /** The first element of an instruction is recovered exactly when it is ASCII. */
  lemma DecodeFirst(v: string, sep: string, tail: string)
    ensures Ascii(v) ==> DecodeElement(Element(v) + (sep + tail)) == Some((v, sep + tail))
    ensures !Ascii(v) ==> DecodeElement(Element(v) + (sep + tail)).None?
                          || DecodeElement(Element(v) + (sep + tail)).value.0 != v
  {
    ByteLenAscii(v);
    DecodeElementOf(v, sep + tail);
    assert (v + (sep + tail))[..|v|] == v && (v + (sep + tail))[|v|..] == sep + tail;
  }

  lemma FormOfOne(v: string, rest: string)
    ensures Form([v]) + rest == Element(v) + (";" + rest)
  {
    assert Elements([v]) == [Element(v)];
  }

  lemma FormOfMore(parts: seq<string>, rest: string)
    requires |parts| > 1
    ensures Form(parts) + rest == Element(parts[0]) + ("," + (Form(parts[1..]) + rest))
  {
    assert Elements(parts)[1..] == Elements(parts[1..]);
  }

  lemma InstructionEnds(s: string, v: string, tail: string)
    requires DecodeElement(s) == Some((v, ";" + tail))
    ensures DecodeInstruction(s) == Some(([v], tail))
  {
    assert (";" + tail)[1..] == tail;
  }

  lemma InstructionGoesOn(s: string, v: string, tail: string)
    requires DecodeElement(s) == Some((v, "," + tail))
    ensures DecodeInstruction(s).Some? <==> DecodeInstruction(tail).Some?
    ensures DecodeInstruction(s).Some? ==>
              DecodeInstruction(s).value
              == ([v] + DecodeInstruction(tail).value.0, DecodeInstruction(tail).value.1)
  {
    assert ("," + tail)[1..] == tail;
  }

  lemma OtherFirst(s: string, v: string)
    requires DecodeElement(s).None? || DecodeElement(s).value.0 != v
    ensures DecodeInstruction(s).Some? ==> DecodeInstruction(s).value.0 != [] && DecodeInstruction(s).value.0[0] != v
  {}

  /** The decoder recovers an instruction, whatever follows it, exactly when its elements are ASCII; the
      delimiters themselves may stand in the elements. It does not return the elements by accident either. */
  lemma {:induction false} DecodeForm(parts: seq<string>, rest: string)
    requires parts != []
    ensures DecodeInstruction(Form(parts) + rest) == Some((parts, rest)) <==> AllAscii(parts)
    ensures DecodeInstruction(Form(parts) + rest).Some? && DecodeInstruction(Form(parts) + rest).value.0 == parts ==>
              AllAscii(parts)
    decreases |parts|
  {
    var s, v := Form(parts) + rest, parts[0];
    if |parts| == 1 {
      assert parts == [v];
      FormOfOne(v, rest);
      DecodeFirst(v, ";", rest);
      if Ascii(v) {
        InstructionEnds(s, v, rest);
      } else {
        OtherFirst(s, v);
      }
    } else {
      var tail := Form(parts[1..]) + rest;
      FormOfMore(parts, rest);
      DecodeFirst(v, ",", tail);
      if Ascii(v) {
        InstructionGoesOn(s, v, tail);
        DecodeForm(parts[1..], rest);
        TailsDecide(v, parts);
      } else {
        OtherFirst(s, v);
      }
    }
  }

  lemma TailsDecide(v: string, parts: seq<string>)
    requires parts != [] && parts[0] == v && Ascii(v)
    ensures forall vs: seq<string> :: [v] + vs == parts <==> vs == parts[1..]
    ensures AllAscii(parts) <==> AllAscii(parts[1..])
  {
    forall vs: seq<string> ensures [v] + vs == parts <==> vs == parts[1..] {
      assert ([v] + vs)[1..] == vs && [v] + parts[1..] == parts;
    }
    if AllAscii(parts[1..]) {
      forall k | 0 <= k < |parts| ensures Ascii(parts[k]) {
        if k > 0 {
          assert parts[k] == parts[1..][k - 1];
        }
      }
    }
  }

  /** Whole streams: the decoder recovers the instructions exactly when all of their elements are ASCII. */
  lemma {:induction false} DecodeStreamOf(list: seq<seq<string>>)
    requires forall k :: 0 <= k < |list| ==> list[k] != []
    ensures DecodeStream(Stream(list)) == Some(list) <==> forall k :: 0 <= k < |list| ==> AllAscii(list[k])
  {
    if list == [] {
    } else {
      DecodeForm(list[0], Stream(list[1..]));
      DecodeStreamOf(list[1..]);
      AllFromFirst(list);
    }
  }

  lemma AllFromFirst(list: seq<seq<string>>)
    requires list != []
    ensures list == [list[0]] + list[1..]
    ensures (forall k :: 0 <= k < |list| ==> AllAscii(list[k])) <==>
            AllAscii(list[0]) && forall k :: 0 <= k < |list[1..]| ==> AllAscii(list[1..][k])
  {
    if forall k :: 0 <= k < |list[1..]| ==> AllAscii(list[1..][k]) {
      forall k | 1 <= k < |list| ensures AllAscii(list[k]) {
        assert list[k] == list[1..][k - 1];
      }
    }
  }

  // ---------- the program's parser ----------

  /** strings.TrimRight with ";". */
  function TrimSemicolons(s: string): string {
    if s != "" && s[|s| - 1] == ';' then TrimSemicolons(s[..|s| - 1]) else s
  }

  /** The second dot-separated piece of every message; indexing past the end panics. */
  function Values(messages: seq<string>): (r: Outcome<seq<string>>)
    ensures r.Ok? ==> |r.value| == |messages|
  {
    if messages == [] then Ok([])
    else
      var lm := Split(messages[0], '.');
      if |lm| < 2 then Panic
      else
        match Values(messages[1..])
        case Ok(vs) => Ok([lm[1]] + vs)
        case _ => Panic
  }

  function Parse(content: string): Outcome<seq<string>> {
    var trimmed := if content != "" && ';' in content[1..] then TrimSemicolons(content) else content;
    Values(Split(trimmed, ','))
  }

  lemma {:induction false} ValuesFree(messages: seq<string>)
    requires Values(messages).Ok? && forall k :: 0 <= k < |messages| ==> ',' !in messages[k]
    ensures forall k :: 0 <= k < |messages| ==> ',' !in Values(messages).value[k] && '.' !in Values(messages).value[k]
  {
    if messages == [] {
    } else {
      ValuesFree(messages[1..]);
      SplitCount(messages[0], '.');
      SplitKeeps(messages[0], '.');
    }
  }

  lemma {:induction false} SplitKeeps(s: string, sep: char)
    ensures forall k, c :: 0 <= k < |Split(s, sep)| && c in Split(s, sep)[k] ==> c in s
  {
    if s == "" {
    } else {
      SplitKeeps(s[1..], sep);
      var rest, parts := Split(s[1..], sep), Split(s, sep);
      forall k, c | 0 <= k < |parts| && c in parts[k] ensures c in s {
        if s[0] == sep {
          assert k > 0 && parts[k] == rest[k - 1];
        } else if k > 0 {
          assert parts[k] == rest[k];
        } else if c != s[0] {
          assert c in rest[0];
        }
        assert c == s[0] || c in s[1..];
      }
    }
  }

  /** Whatever the parser returns holds no comma and no dot. */
  lemma ParseFree(content: string)
    requires Parse(content).Ok?
    ensures forall k :: 0 <= k < |Parse(content).value| ==>
      ',' !in Parse(content).value[k] && '.' !in Parse(content).value[k]
  {
    var trimmed := if content != "" && ';' in content[1..] then TrimSemicolons(content) else content;
    SplitCount(trimmed, ',');
    ValuesFree(Split(trimmed, ','));
  }

  predicate Free(parts: seq<string>) {
    forall k :: 0 <= k < |parts| ==> ',' !in parts[k] && '.' !in parts[k]
  }

  lemma TrimAppend(a: string, b: string)
    requires a != "" && a[|a| - 1] != ';'
    ensures TrimSemicolons(a + b) == a + TrimSemicolons(b)
    decreases |b|
  {
    if b == "" {
      assert a + b == a;
    } else if b[|b| - 1] == ';' {
      assert (a + b)[..|a + b| - 1] == a + b[..|b| - 1];
      TrimAppend(a, b[..|b| - 1]);
    }
  }

  lemma {:induction false} ValuesOf(heads: seq<string>, values: seq<string>)
    requires |heads| == |values|
    requires forall k :: 0 <= k < |heads| ==> '.' !in heads[k] && '.' !in values[k]
    ensures Values(Messages(heads, values)) == Ok(values)
  {
    if heads == [] {
    } else {
      assert Messages(heads, values)[1..] == Messages(heads[1..], values[1..]);
      ValuesOf(heads[1..], values[1..]);
      SplitFirst(heads[0], '.', values[0]);
      SplitWithoutSeparator(values[0], '.');
      assert values == [values[0]] + values[1..];
    }
  }

  function Heads(parts: seq<string>): (heads: seq<string>)
    ensures |heads| == |parts|
  {
    seq(|parts|, i requires 0 <= i < |parts| => Itoa(ByteLen(parts[i])))
  }

  function Messages(heads: seq<string>, values: seq<string>): (messages: seq<string>)
    requires |heads| == |values|
    ensures |messages| == |heads|
  {
    seq(|heads|, i requires 0 <= i < |heads| => heads[i] + "." + values[i])
  }

  lemma SplitMessages(heads: seq<string>, values: seq<string>)
    requires |heads| == |values| > 0 && Free(heads) && Free(values)
    ensures Values(Split(Join(Messages(heads, values), ","), ',')) == Ok(values)
  {
    SplitJoin(Messages(heads, values), ',');
    ValuesOf(heads, values);
  }

  /** What the parser makes of an encoded instruction whose elements hold no comma and no dot: the last
      element loses its trailing semicolons. */
  lemma ParseForm(parts: seq<string>)
    requires parts != [] && Free(parts)
    ensures Parse(Form(parts)) == Ok(parts[|parts| - 1 := TrimSemicolons(parts[|parts| - 1])])
  {
    var n := |parts| - 1;
    var values := parts[n := TrimSemicolons(parts[n])];
    TrimForm(parts);
    TrimKeeps(parts[n]);
    SplitMessages(Heads(parts), values);
    assert Messages(Heads(parts), values)
        == Elements(parts)[n := Itoa(ByteLen(parts[n])) + "." + TrimSemicolons(parts[n])];
    assert Form(parts)[1..][|Form(parts)| - 2] == ';';
  }

  lemma {:induction false} TrimKeeps(s: string)
    ensures forall c :: c in TrimSemicolons(s) ==> c in s
  {
    if s != "" && s[|s| - 1] == ';' {
      TrimKeeps(s[..|s| - 1]);
    }
  }

  /** Everything before the last element's value; it ends in a dot. */
  function BeforeLast(parts: seq<string>): (s: string)
    requires parts != []
    ensures s != "" && s[|s| - 1] == '.'
  {
    var n := |parts| - 1;
    (if n == 0 then "" else Join(Elements(parts)[..n], ",") + ",") + Itoa(ByteLen(parts[n])) + "."
  }

  lemma JoinBeforeLast(parts: seq<string>, value: string)
    requires parts != []
    ensures
      var n := |parts| - 1;
      Join(Elements(parts)[n := Itoa(ByteLen(parts[n])) + "." + value], ",") == BeforeLast(parts) + value
  {
    var n := |parts| - 1;
    var es, last := Elements(parts), Itoa(ByteLen(parts[n])) + "." + value;
    assert es[n := last] == es[..n] + [last];
    if n > 0 {
      JoinSnoc(es[..n], last, ",");
    }
  }

  lemma TrimForm(parts: seq<string>)
    requires parts != []
    ensures |Form(parts)| >= 2
    ensures
      var n := |parts| - 1;
      TrimSemicolons(Form(parts))
      == Join(Elements(parts)[n := Itoa(ByteLen(parts[n])) + "." + TrimSemicolons(parts[n])], ",")
  {
    var n := |parts| - 1;
    JoinBeforeLast(parts, parts[n]);
    assert Elements(parts)[n := Element(parts[n])] == Elements(parts);
    assert Form(parts) == BeforeLast(parts) + (parts[n] + ";");
    TrimAppend(BeforeLast(parts), parts[n] + ";");
    assert (parts[n] + ";")[..|parts[n]|] == parts[n];
    JoinBeforeLast(parts, TrimSemicolons(parts[n]));
  }

  predicate EndsInSemicolon(s: string) {
    s != "" && s[|s| - 1] == ';'
  }

  /** The program's parser agrees with its encoder exactly when no element holds a comma or a dot and the
      last element does not end in a semicolon. */
  lemma ParseExactly(parts: seq<string>)
    requires parts != []
    ensures Parse(Form(parts)) == Ok(parts) <==> Free(parts) && !EndsInSemicolon(parts[|parts| - 1])
  {
    var n := |parts| - 1;
    if Parse(Form(parts)) == Ok(parts) {
      ParseFree(Form(parts));
    }
    if Free(parts) {
      ParseForm(parts);
      TrimShorter(parts[n]);
      assert parts[n := parts[n]] == parts;
      assert parts[n := TrimSemicolons(parts[n])][n] == TrimSemicolons(parts[n]);
    }
  }

  lemma TrimShorter(s: string)
    ensures TrimSemicolons(s) == s <==> !EndsInSemicolon(s)
    ensures |TrimSemicolons(s)| <= |s|
  {}

  /** ... so on clean ASCII elements the parser and the protocol's decoder return the same list. */
  lemma ParseAgreesWithDecoder(parts: seq<string>)
    requires parts != [] && AllAscii(parts) && Free(parts) && !EndsInSemicolon(parts[|parts| - 1])
    ensures Parse(Form(parts)).Ok? && DecodeInstruction(Form(parts)) == Some((Parse(Form(parts)).value, ""))
  {
    ParseExactly(parts);
    DecodeForm(parts, "");
    assert Form(parts) + "" == Form(parts);
  }
}
