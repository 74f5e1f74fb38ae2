// PHP array values and the pretty printer that writes them into the
// generated configuration file (varExportPretty in setup.php), together with
// a reader for the array-literal syntax it produces, so that what is written
// can be shown to read back as the value that was written.

module PhpExport {
  import opened Common

  /** An array key: PHP keeps integer and string keys apart. */
  datatype Key = IntKey(i: int) | StrKey(s: string)

  /** A PHP value as the configuration holds it; an array keeps its insertion order. */
  datatype Value =
    | Null
    | Bool(b: bool)
    | Int(i: int)
    | Str(s: string)
    | Arr(entries: seq<Entry>)

  datatype Entry = Entry(key: Key, val: Value)

  // ---------------------------------------------------------------------
  // var_export on scalars

  /** var_export of an integer: an optional minus sign and the decimal digits. */
  function ExportInt(i: int): string
  {
    if i < 0 then "-" + NatToString(-i) else NatToString(i)
  }

  // ---------------------------------------------------------------------
  // String conversion

  /** PHP's empty() on a configuration value. */
  predicate EmptyValue(v: Value)
  {
    match v
    case Null => true
    case Bool(b) => !b
    case Int(i) => i == 0
    case Str(s) => PhpEmpty(s)
    case Arr(es) => es == []
  }

  /** A configuration value converted to a string as PHP does it; arrays have no string form (None). */
  function ValueText(v: Value): Option<string>
  {
    match v
    case Null => Some("")
    case Bool(b) => Some(if b then "1" else "")
    case Int(i) => Some(ExportInt(i))
    case Str(s) => Some(s)
    case Arr(_) => None
  }

  /** A configuration value as `.` concatenates it: an array reads as "Array". */
  function ConcatText(v: Value): string
  {
    if v.Arr? then "Array" else ValueText(v).value
  }

  /** A decoded JSON value converted to a string as PHP does it; arrays have no string form (None). */
  function JsonText(j: Json): Option<string>
  {
    match j
    case JNull => Some("")
    case JBool(b) => Some(if b then "1" else "")
    case JNum(n) => Some(ExportInt(n))
    case JStr(s) => Some(s)
    case _ => None
  }

  /** The body of a single-quoted literal: a backslash before each quote and backslash. */
  function Escape(s: string): (r: string)
    ensures |r| >= |s|
  {
    if s == [] then ""
    else (if s[0] == '\'' || s[0] == '\\' then ['\\', s[0]] else [s[0]]) + Escape(s[1..])
  }

  function ExportString(s: string): string
  {
    "'" + Escape(s) + "'"
  }

  function ExportKey(k: Key): string
  {
    match k
    case IntKey(i) => ExportInt(i)
    case StrKey(s) => ExportString(s)
  }

  // ---------------------------------------------------------------------
  // The printer

  /** One level of indentation. */
  const Step: string := "    "

  /** `array_keys($var) === range(0, count($var) - 1)` for a non-empty array. */
  predicate Indexed(es: seq<Entry>)
  {
    forall i :: 0 <= i < |es| ==> es[i].key == IntKey(i)
  }

  /** The text before each element's value: its key and " => ", or nothing in an indexed array. */
  function KeyParts(es: seq<Entry>): (r: seq<string>)
    ensures |r| == |es|
  {
    seq(|es|, k requires 0 <= k < |es| => if Indexed(es) then "" else ExportKey(es[k].key) + " => ")
  }

  /**
   * The element lines from position i on, each ended by ",\n": indented one
   * step deeper than the parent, then the key part, then the printed value.
   */
  function Block(kps: seq<string>, vals: seq<string>, i: nat, indent: string): string
    requires |kps| == |vals| && i <= |vals|
    decreases |vals| - i
  {
    if i == |vals| then ""
    else (indent + Step) + (kps[i] + (vals[i] + (",\n" + Block(kps, vals, i + 1, indent))))
  }

  /**
   * The printer with every element line ended by ",\n": an array opens with
   * "[\n", holds one line per element and closes with ']' at the parent's
   * indentation. An empty array prints as "[\n<indent>]".
   */
  function Pretty(v: Value, indent: string): string
    decreases v
  {
    match v
    case Null => "NULL"
    case Bool(b) => if b then "true" else "false"
    case Int(i) => ExportInt(i)
    case Str(s) => ExportString(s)
    case Arr(es) =>
      var vals := seq(|es|, k requires 0 <= k < |es| => Pretty(es[k].val, indent + Step));
      "[\n" + Block(KeyParts(es), vals, 0, indent) + indent + "]"
  }

  /** The element lines of the printer as written, before they are joined. */
  function LineList(kps: seq<string>, vals: seq<string>, indent: string): (r: seq<string>)
    requires |kps| == |vals|
    ensures |r| == |vals|
  {
    seq(|vals|, k requires 0 <= k < |vals| => (indent + Step) + (kps[k] + vals[k]))
  }

  /**
   * varExportPretty as written: the element lines are joined with ",\n" and
   * one more ",\n" follows, so an empty array prints as "[\n,\n<indent>]".
   */
  function PrettyAsWritten(v: Value, indent: string): string
    decreases v
  {
    match v
    case Null => "NULL"
    case Bool(b) => if b then "true" else "false"
    case Int(i) => ExportInt(i)
    case Str(s) => ExportString(s)
    case Arr(es) =>
      var vals := seq(|es|, k requires 0 <= k < |es| => PrettyAsWritten(es[k].val, indent + Step));
      "[\n" + Join(LineList(KeyParts(es), vals, indent), ",\n") + ",\n" + indent + "]"
  }

  /** No array anywhere in the value is empty. */
  predicate NoEmptyArray(v: Value)
  {
    match v
    case Arr(es) => es != [] && forall i :: 0 <= i < |es| ==> NoEmptyArray(es[i].val)
    case _ => true
  }

  // ---------------------------------------------------------------------
  // The reader: PHP array-literal syntax as the printer uses it

  predicate IsWs(c: char) { c == ' ' || c == '\n' || c == '\t' || c == '\r' }

  predicate AllWs(s: string) { forall i :: 0 <= i < |s| ==> IsWs(s[i]) }

  function SkipWs(s: string): (r: string)
    ensures |r| <= |s|
    ensures r == [] || !IsWs(r[0])
  {
    if s != [] && IsWs(s[0]) then SkipWs(s[1..]) else s
  }

  /**
   * The rest of a single-quoted literal after its opening quote: a
   * backslash before a quote or a backslash stands for that character, any
   * other character stands for itself, and an unescaped quote ends it.
   */
  function ParseString(s: string): (r: Option<(string, string)>)
    ensures r.Some? ==> |r.value.1| < |s|
  {
    if s == [] then None
    else if s[0] == '\'' then Some(("", s[1..]))
    else if s[0] == '\\' && |s| >= 2 && (s[1] == '\'' || s[1] == '\\') then
      match ParseString(s[2..])
      case None => None
      case Some((t, rest)) => Some(([s[1]] + t, rest))
    else
      match ParseString(s[1..])
      case None => None
      case Some((t, rest)) => Some(([s[0]] + t, rest))
  }

  /** A scalar literal at the front of t: a quoted string, NULL, true, false or an integer. */
  function ParseScalar(t: string): (r: Option<(Value, string)>)
    ensures r.Some? ==> |r.value.1| < |t| && !r.value.0.Arr?
  {
    if t == [] then None
    else if t[0] == '\'' then
      match ParseString(t[1..])
      case None => None
      case Some((x, rest)) => Some((Str(x), rest))
    else if |t| >= 4 && t[0] == 'N' && t[1] == 'U' && t[2] == 'L' && t[3] == 'L' then Some((Null, t[4..]))
    else if |t| >= 4 && t[0] == 't' && t[1] == 'r' && t[2] == 'u' && t[3] == 'e' then Some((Bool(true), t[4..]))
    else if |t| >= 5 && t[0] == 'f' && t[1] == 'a' && t[2] == 'l' && t[3] == 's' && t[4] == 'e' then
      Some((Bool(false), t[5..]))
    else if t[0] == '-' then
      match ReadNat(t[1..])
      case None => None
      case Some((n, rest)) => Some((Int(0 - n), rest))
    else
      match ReadNat(t)
      case None => None
      case Some((n, rest)) => Some((Int(n), rest))
  }

  /** A value, after optional white space; returns it and the text after it. */
  function ParseValue(s: string): (r: Option<(Value, string)>)
    ensures r.Some? ==> |r.value.1| < |s|
    decreases |s|, 1
  {
    ValueAt(SkipWs(s))
  }

  /** A value at the very front of t. */
  function ValueAt(t: string): (r: Option<(Value, string)>)
    ensures r.Some? ==> |r.value.1| < |t|
    decreases |t|, 0
  {
    if t != [] && t[0] == '[' then
      match ParseEntries(t[1..], 0)
      case None => None
      case Some((es, rest)) => Some((Arr(es), rest))
    else ParseScalar(t)
  }

  /** The text starts with `=>`. */
  predicate Arrow(u: string) { |u| >= 2 && u[0] == '=' && u[1] == '>' }

  /** The key a scalar stands for in `key => value`. */
  function AsKey(v: Value): Option<Key>
  {
    match v
    case Int(i) => Some(IntKey(i))
    case Str(s) => Some(StrKey(s))
    case _ => None
  }

  /**
   * One element: `key => value`, or a bare value that takes its position
   * as its key.
   */
  function ParseElement(t: string, pos: nat): (r: Option<(Entry, string)>)
    ensures r.Some? ==> |r.value.1| < |t|
    decreases |t|, 2
  {
    match ParseValue(t)
    case None => None
    case Some((first, r1)) =>
      var u := SkipWs(r1);
      if Arrow(u) then
        match AsKey(first)
        case None => None
        case Some(k) =>
          match ParseValue(u[2..])
          case None => None
          case Some((val, r2)) => Some((Entry(k, val), r2))
      else Some((Entry(IntKey(pos), first), r1))
  }

  /** The elements up to and including the closing ']', after optional white space. */
  function ParseEntries(s: string, pos: nat): (r: Option<(seq<Entry>, string)>)
    ensures r.Some? ==> |r.value.1| < |s|
    decreases |s|, 4
  {
    EntriesAt(SkipWs(s), pos)
  }

  /** The elements, each followed by ',' or by the closing ']'. */
  function EntriesAt(t: string, pos: nat): (r: Option<(seq<Entry>, string)>)
    ensures r.Some? ==> |r.value.1| < |t|
    decreases |t|, 3
  {
    if t == [] then None
    else if t[0] == ']' then Some(([], t[1..]))
    else
      match ParseElement(t, pos)
      case None => None
      case Some((e, r2)) =>
        var w := SkipWs(r2);
        if w != [] && w[0] == ',' then
          match ParseEntries(w[1..], pos + 1)
          case None => None
          case Some((es, rest)) => Some(([e] + es, rest))
        else if w != [] && w[0] == ']' then Some(([e], w[1..]))
        else None
  }

  // ---------------------------------------------------------------------
  // Reading back what was printed

  /** The closing bracket at the parent's indentation and the text after the array. */
  function Close(indent: string, rest: string): string
  {
    indent + ("]" + rest)
  }

  lemma {:induction false} Assoc(a: string, b: string, c: string)
    ensures (a + b) + c == a + (b + c)
  {
  }

  /** The text after a printed value does not extend it: it cannot continue a number. */
  predicate Stops(rest: string) { rest == [] || !IsDigit(rest[0]) }

  lemma {:induction false} SkipWsOver(ws: string, t: string)
    requires AllWs(ws) && (t == [] || !IsWs(t[0]))
    ensures SkipWs(ws + t) == t
  {
    if ws != [] {
      assert (ws + t)[1..] == ws[1..] + t;
      SkipWsOver(ws[1..], t);
    }
  }

  /** A quoted literal reads back as the string it quotes. */
  lemma {:induction false} EscapeRoundTrip(s: string, rest: string)
    ensures ParseString(Escape(s) + "'" + rest) == Some((s, rest))
  {
    if s != [] {
      EscapeRoundTrip(s[1..], rest);
      var head := if s[0] == '\'' || s[0] == '\\' then ['\\', s[0]] else [s[0]];
      assert Escape(s) + "'" + rest == head + (Escape(s[1..]) + "'" + rest);
      var x := Escape(s) + "'" + rest;
      if s[0] == '\'' || s[0] == '\\' {
        assert x[2..] == Escape(s[1..]) + "'" + rest;
      } else {
        assert x[1..] == Escape(s[1..]) + "'" + rest;
      }
      assert [s[0]] + s[1..] == s;
    }
  }

  /** Reading a value that starts with neither white space nor '[' reads a scalar. */
  lemma {:induction false} ParseValueScalar(t: string)
    requires t != [] && !IsWs(t[0]) && t[0] != '['
    ensures ParseValue(t) == ParseScalar(t)
  {
    assert SkipWs(t) == t;
  }

  /** A leading digit starts a non-negative integer. */
  lemma {:induction false} ScalarDigits(x: string)
    requires x != [] && IsDigit(x[0])
    ensures ParseScalar(x) == match ReadNat(x) case None => None case Some((n, r)) => Some((Int(n), r))
  {
  }

  /** A leading minus sign starts a negative integer. */
  lemma {:induction false} ScalarMinus(x: string)
    requires x != [] && x[0] == '-'
    ensures ParseScalar(x) == match ReadNat(x[1..]) case None => None case Some((n, r)) => Some((Int(0 - n), r))
  {
  }

  /** A minus sign in front of a digit run reads as the negated number. */
  lemma {:induction false} MinusRead(d: string, rest: string, n: nat)
    requires ReadNat(d + rest) == Some((n, rest))
    ensures ParseScalar("-" + (d + rest)) == Some((Int(0 - n), rest))
  {
    var x := "-" + (d + rest);
    assert x[1..] == d + rest;
    ScalarMinus(x);
  }

  /** A digit run reads as its number. */
  lemma {:induction false} DigitsRead(d: string, rest: string, n: nat)
    requires d != [] && IsDigit(d[0]) && ReadNat(d + rest) == Some((n, rest))
    ensures ParseScalar(d + rest) == Some((Int(n), rest))
  {
    assert (d + rest)[0] == d[0];
    ScalarDigits(d + rest);
  }

  lemma {:induction false} ParseIntRoundTrip(i: int, rest: string)
    requires Stops(rest)
    ensures ParseScalar(ExportInt(i) + rest) == Some((Int(i), rest))
  {
    var n: nat := if i < 0 then -i else i;
    var d := NatToString(n);
    ReadNatOfNat(n, rest);
    if i < 0 {
      assert ExportInt(i) + rest == "-" + (d + rest);
      MinusRead(d, rest, n);
    } else {
      assert IsDigit(d[0]);
      DigitsRead(d, rest, n);
    }
  }

  lemma {:induction false} ParseStrRoundTrip(s: string, rest: string)
    ensures ParseScalar(ExportString(s) + rest) == Some((Str(s), rest))
  {
    EscapeRoundTrip(s, rest);
    var x := ExportString(s) + rest;
    assert x[1..] == Escape(s) + "'" + rest;
  }

  lemma {:induction false} ParseWordRoundTrip(v: Value, rest: string)
    requires v.Null? || v.Bool?
    ensures ParseScalar(Pretty(v, "") + rest) == Some((v, rest))
  {
    var w := Pretty(v, "");
    var x := w + rest;
    assert x[..|w|] == w && x[|w|..] == rest;
    if v.Null? {
      assert x[0] == 'N' && x[1] == 'U' && x[2] == 'L' && x[3] == 'L';
    } else if v.b {
      assert x[0] == 't' && x[1] == 'r' && x[2] == 'u' && x[3] == 'e';
    } else {
      assert x[0] == 'f' && x[1] == 'a' && x[2] == 'l' && x[3] == 's' && x[4] == 'e';
    }
  }

  /** Every printed scalar reads back as itself. */
  lemma {:induction false} ScalarRoundTrip(v: Value, rest: string)
    requires !v.Arr? && Stops(rest)
    ensures ParseValue(Pretty(v, "") + rest) == Some((v, rest))
  {
    PrettyStart(v, "");
    ParseValueScalar(Pretty(v, "") + rest);
    match v
    case Int(i) => ParseIntRoundTrip(i, rest);
    case Str(s) => ParseStrRoundTrip(s, rest);
    case _ => ParseWordRoundTrip(v, rest);
  }

  function KeyValue(k: Key): (r: Value)
    ensures Pretty(r, "") == ExportKey(k) && !r.Arr?
  {
    match k
    case IntKey(i) => Int(i)
    case StrKey(s) => Str(s)
  }

  /** A printed value starts with a character that is neither white space nor ']'. */
  lemma {:induction false} PrettyStart(v: Value, indent: string)
    ensures Pretty(v, indent) != [] && !IsWs(Pretty(v, indent)[0]) && Pretty(v, indent)[0] != ']'
    ensures !v.Arr? ==> Pretty(v, indent)[0] != '['
  {
    match v
    case Int(i) => assert IsDigit(NatToString(if i < 0 then -i else i)[0]);
    case _ =>
  }

  /** White space before a value or before the elements is skipped. */
  lemma {:induction false} SkipWsPrefix(ws: string, t: string)
    requires AllWs(ws)
    ensures SkipWs(ws + t) == SkipWs(t)
  {
    if ws != [] {
      assert (ws + t)[0] == ws[0];
      assert (ws + t)[1..] == ws[1..] + t;
      SkipWsPrefix(ws[1..], t);
    } else {
      assert ws + t == t;
    }
  }

  /** An opening bracket and a line break, then the elements. */
  lemma {:induction false} ValueOpen(body: string)
    ensures ParseValue("[" + ("\n" + body)) ==
      match ParseEntries(body, 0)
      case None => None
      case Some((es, r)) => Some((Arr(es), r))
  {
    var x := "[" + ("\n" + body);
    assert SkipWs(x) == x;
    assert x[1..] == "\n" + body;
    EntriesSkip("\n", body, 0);
  }

  /** An element followed by a comma and white space: the loop goes on with the next position. */
  lemma {:induction false} EntriesAtStep(t: string, pos: nat, e: Entry, r2: string, es: seq<Entry>, rest: string)
    requires t != [] && t[0] != ']'
    requires ParseElement(t, pos) == Some((e, r2))
    requires SkipWs(r2) != [] && SkipWs(r2)[0] == ','
    requires ParseEntries(SkipWs(r2)[1..], pos + 1) == Some((es, rest))
    ensures EntriesAt(t, pos) == Some(([e] + es, rest))
  {
  }

  /** The parts of a keyed element, read one after the other. */
  lemma {:induction false} ElementAtKey(t: string, pos: nat, first: Value, r1: string, k: Key, val: Value, r2: string)
    requires ParseValue(t) == Some((first, r1))
    requires Arrow(SkipWs(r1)) && AsKey(first) == Some(k)
    requires ParseValue(SkipWs(r1)[2..]) == Some((val, r2))
    ensures ParseElement(t, pos) == Some((Entry(k, val), r2))
  {
  }

  /** An unkeyed element takes its position as its key. */
  lemma {:induction false} ElementIndexed(pv: string, val: Value, after: string, pos: nat)
    requires ParseValue(pv + after) == Some((val, after))
    requires after != [] && after[0] == ','
    ensures ParseElement(pv + after, pos) == Some((Entry(IntKey(pos), val), after))
  {
    assert SkipWs(after) == after;
    assert !Arrow(after);
  }

  /** White space in front of a value changes nothing. */
  lemma {:induction false} ValueSkip(ws: string, t: string)
    requires AllWs(ws)
    ensures ParseValue(ws + t) == ParseValue(t)
  {
    SkipWsPrefix(ws, t);
  }

  /** A key literal reads back as a scalar standing for that key. */
  lemma {:induction false} KeyRoundTrip(k: Key, rest: string)
    requires Stops(rest)
    ensures ParseValue(ExportKey(k) + rest) == Some((KeyValue(k), rest))
    ensures AsKey(KeyValue(k)) == Some(k)
  {
    ScalarRoundTrip(KeyValue(k), rest);
  }

  lemma {:induction false} SkipBeforeArrow(x: string)
    ensures SkipWs(" => " + x) == "=> " + x
  {
    var y := " => " + x;
    assert y[0] == ' ' && y[1..] == "=> " + x;
    assert ("=> " + x)[0] == '=';
  }

  /** After the key, " => " and then the value. */
  lemma {:induction false} ArrowThenValue(x: string)
    ensures Arrow(SkipWs(" => " + x))
    ensures ParseValue(SkipWs(" => " + x)[2..]) == ParseValue(x)
  {
    SkipBeforeArrow(x);
    var u := "=> " + x;
    assert u[2..] == " " + x;
    ValueSkip(" ", x);
  }

  /** A keyed element: the key literal, " => ", then the value. */
  lemma {:induction false} ElementKeyed(k: Key, pv: string, val: Value, after: string, pos: nat)
    requires ParseValue(pv + after) == Some((val, after))
    ensures ParseElement(ExportKey(k) + (" => " + (pv + after)), pos) == Some((Entry(k, val), after))
  {
    var arrow := " => " + (pv + after);
    KeyRoundTrip(k, arrow);
    ArrowThenValue(pv + after);
    ElementAtKey(ExportKey(k) + arrow, pos, KeyValue(k), arrow, k, val, after);
  }

  /** White space in front of the elements changes nothing. */
  lemma {:induction false} EntriesSkip(ws: string, t: string, pos: nat)
    requires AllWs(ws)
    ensures ParseEntries(ws + t, pos) == ParseEntries(t, pos)
  {
    SkipWsPrefix(ws, t);
  }

  /** One step of the element loop: an element, a comma and a line break, then the rest of the elements. */
  lemma {:induction false} EntriesStep(ws: string, t: string, pos: nat, e: Entry, tail: string, es: seq<Entry>, rest: string)
    requires AllWs(ws) && t != [] && !IsWs(t[0]) && t[0] != ']'
    requires ParseElement(t, pos) == Some((e, ",\n" + tail))
    requires ParseEntries(tail, pos + 1) == Some((es, rest))
    ensures ParseEntries(ws + t, pos) == Some(([e] + es, rest))
  {
    EntriesSkip(ws, t, pos);
    assert SkipWs(t) == t;
    assert ParseEntries(t, pos) == EntriesAt(t, pos);
    var after := ",\n" + tail;
    assert SkipWs(after) == after;
    assert after[1..] == "\n" + tail;
    EntriesSkip("\n", tail, pos + 1);
    EntriesAtStep(t, pos, e, after, es, rest);
  }

  /** The closing bracket at the parent's indentation ends the elements. */
  lemma {:induction false} EntriesClose(indent: string, rest: string, pos: nat)
    requires AllWs(indent)
    ensures ParseEntries(indent + ("]" + rest), pos) == Some(([], rest))
  {
    SkipWsPrefix(indent, "]" + rest);
    assert SkipWs("]" + rest) == "]" + rest;
  }

  /** The element lines from position i on, cut at the value of element i. */
  lemma {:induction false} BlockShape(kps: seq<string>, vals: seq<string>, i: nat, indent: string, close: string)
    requires |kps| == |vals| && i < |vals|
    ensures Block(kps, vals, i, indent) + close ==
      (indent + Step) + (kps[i] + (vals[i] + (",\n" + (Block(kps, vals, i + 1, indent) + close))))
  {
    var l := Block(kps, vals, i + 1, indent);
    var r3 := ",\n" + l;
    var r2 := vals[i] + r3;
    var r1 := kps[i] + r2;
    Assoc(indent + Step, r1, close);
    Assoc(kps[i], r2, close);
    Assoc(vals[i], r3, close);
    Assoc(",\n", l, close);
  }

  /** One element line followed by the lines after it reads back as its entry and theirs. */
  lemma {:induction false} LineRead(deeper: string, kp: string, pv: string, tail: string, e: Entry, i: nat,
                 es: seq<Entry>, rest: string)
    requires AllWs(deeper) && pv != [] && !IsWs(pv[0]) && pv[0] != ']'
    requires KeyShape(kp, e, i)
    requires ParseValue(pv + (",\n" + tail)) == Some((e.val, ",\n" + tail))
    requires ParseEntries(tail, i + 1) == Some((es, rest))
    ensures ParseEntries(deeper + (kp + (pv + (",\n" + tail))), i) == Some(([e] + es, rest))
  {
    var after := ",\n" + tail;
    if kp == "" {
      assert kp + (pv + after) == pv + after;
      ElementIndexed(pv, e.val, after, i);
      EntriesStep(deeper, pv + after, i, e, tail, es, rest);
    } else {
      var ks := ExportKey(e.key);
      PrettyStart(KeyValue(e.key), "");
      Assoc(ks, " => ", pv + after);
      ElementKeyed(e.key, pv, e.val, after, i);
      EntriesStep(deeper, kp + (pv + after), i, e, tail, es, rest);
    }
  }

  /** The text before a value fits its entry at position pos: nothing and the position as key, or the key and " => ". */
  predicate KeyShape(kp: string, e: Entry, pos: nat)
  {
    if kp == "" then e.key == IntKey(pos) else kp == ExportKey(e.key) + " => "
  }

  /** The key part KeyParts gives element k fits that element. */
  lemma {:induction false} KeyShapeAt(es: seq<Entry>, k: nat)
    requires k < |es|
    ensures KeyShape(KeyParts(es)[k], es[k], k)
  {
    if !Indexed(es) {
      assert ExportKey(es[k].key) + " => " != "";
    }
  }

  /**
   * The element lines of array v from position i on read back as its entries
   * from i on, then the ']'.
   */
  lemma {:induction false} BlockRoundTrip(v: Value, vals: seq<string>, i: nat, indent: string, rest: string)
    requires v.Arr? && AllWs(indent) && |vals| == |v.entries| && i <= |vals|
    requires forall k :: 0 <= k < |vals| ==> vals[k] == Pretty(v.entries[k].val, indent + Step)
    ensures ParseEntries(Block(KeyParts(v.entries), vals, i, indent) + Close(indent, rest), i)
      == Some((v.entries[i..], rest))
    decreases v, 0, |vals| - i
  {
    var es := v.entries;
    var kps := KeyParts(es);
    if i == |es| {
      BlockEnd(kps, vals, es, i, indent, rest);
    } else {
      BlockRoundTrip(v, vals, i + 1, indent, rest);
      var tail := Block(kps, vals, i + 1, indent) + Close(indent, rest);
      ElementFacts(v, vals, i, indent, tail);
      BlockShape(kps, vals, i, indent, Close(indent, rest));
      assert es[i..] == [es[i]] + es[i + 1..];
      IndentedLine(indent, kps[i], vals[i], tail, Block(kps, vals, i, indent) + Close(indent, rest),
                   es[i], i, es[i + 1..], es[i..], rest);
    }
  }

  /** What BlockStep needs to know of element i of array v: its value reads back, how it starts, its key part. */
  lemma {:induction false} ElementFacts(v: Value, vals: seq<string>, i: nat, indent: string, tail: string)
    requires v.Arr? && AllWs(indent) && |vals| == |v.entries| && i < |vals|
    requires forall k :: 0 <= k < |vals| ==> vals[k] == Pretty(v.entries[k].val, indent + Step)
    ensures ParseValue(vals[i] + (",\n" + tail)) == Some((v.entries[i].val, ",\n" + tail))
    ensures vals[i] != [] && !IsWs(vals[i][0]) && vals[i][0] != ']'
    ensures KeyShape(KeyParts(v.entries)[i], v.entries[i], i)
    decreases v, 0, 0
  {
    var e := v.entries[i];
    assert e in v.entries;
    assert AllWs(indent + Step);
    PrettyRoundTrip(e.val, indent + Step, ",\n" + tail);
    PrettyStart(e.val, indent + Step);
    KeyShapeAt(v.entries, i);
  }

  /** After the last element line comes the closing ']'. */
  lemma {:induction false} BlockEnd(kps: seq<string>, vals: seq<string>, es: seq<Entry>, i: nat, indent: string, rest: string)
    requires |kps| == |vals| == |es| == i && AllWs(indent)
    ensures ParseEntries(Block(kps, vals, i, indent) + Close(indent, rest), i) == Some((es[i..], rest))
  {
    assert Block(kps, vals, i, indent) + Close(indent, rest) == indent + ("]" + rest);
    EntriesClose(indent, rest, i);
    assert es[i..] == [];
  }

  /** An element line one step deeper than indent, followed by the lines after it. */
  lemma {:induction false} IndentedLine(indent: string, kp: string, pv: string, tail: string, whole: string, e: Entry, i: nat,
                     es: seq<Entry>, all: seq<Entry>, rest: string)
    requires AllWs(indent) && pv != [] && !IsWs(pv[0]) && pv[0] != ']'
    requires KeyShape(kp, e, i)
    requires ParseValue(pv + (",\n" + tail)) == Some((e.val, ",\n" + tail))
    requires ParseEntries(tail, i + 1) == Some((es, rest))
    requires whole == (indent + Step) + (kp + (pv + (",\n" + tail))) && all == [e] + es
    ensures ParseEntries(whole, i) == Some((all, rest))
  {
    assert AllWs(indent + Step);
    LineRead(indent + Step, kp, pv, tail, e, i, es, rest);
  }

  /** An array opens with '[' and its element lines follow. */
  lemma {:induction false} ArrayOpen(kps: seq<string>, vals: seq<string>, indent: string, rest: string)
    requires |kps| == |vals|
    ensures ParseValue("[\n" + Block(kps, vals, 0, indent) + indent + "]" + rest) ==
      match ParseEntries(Block(kps, vals, 0, indent) + Close(indent, rest), 0)
      case None => None
      case Some((es, r)) => Some((Arr(es), r))
  {
    var l := Block(kps, vals, 0, indent);
    var body := l + Close(indent, rest);
    Assoc("[\n" + l + indent, "]", rest);
    Assoc("[\n" + l, indent, "]" + rest);
    Assoc("[\n", l, Close(indent, rest));
    assert "[\n" == "[" + "\n";
    Assoc("[", "\n", body);
    ValueOpen(body);
  }

  /**
   * Round trip: whatever value is printed, at any indentation made of white
   * space, reads back as that value, leaving the text after it.
   */
  lemma {:induction false} PrettyRoundTrip(v: Value, indent: string, rest: string)
    requires AllWs(indent) && Stops(rest)
    ensures ParseValue(Pretty(v, indent) + rest) == Some((v, rest))
    decreases v, 1
  {
    if v.Arr? {
      var es := v.entries;
      var deeper := indent + Step;
      assert AllWs(deeper);
      var vals := seq(|es|, k requires 0 <= k < |es| => Pretty(es[k].val, deeper));
      var kps := KeyParts(es);
      BlockRoundTrip(v, vals, 0, indent, rest);
      ArrayOpen(kps, vals, indent, rest);
      assert es[0..] == es;
    } else {
      ScalarRoundTrip(v, rest);
      assert Pretty(v, indent) == Pretty(v, "");
    }
  }

  // ---------------------------------------------------------------------
  // The printer as written

  /** Joining the lines with ",\n" and adding one more ",\n" gives the element lines, when there is one. */
  lemma {:induction false} JoinBlock(kps: seq<string>, vals: seq<string>, i: nat, indent: string)
    requires |kps| == |vals| && i < |vals|
    ensures Join(LineList(kps, vals, indent)[i..], ",\n") + ",\n" == Block(kps, vals, i, indent)
    decreases |vals| - i
  {
    var a := indent + Step;
    var k := kps[i];
    var p := vals[i];
    var line := a + (k + p);
    var ls := LineList(kps, vals, indent)[i..];
    assert ls[0] == line;
    var l := Block(kps, vals, i + 1, indent);
    assert Block(kps, vals, i, indent) == a + (k + (p + (",\n" + l)));
    if i + 1 == |vals| {
      assert ls == [line];
      assert ",\n" + l == ",\n";
      Assoc(a, k + p, ",\n");
      Assoc(k, p, ",\n");
    } else {
      JoinBlock(kps, vals, i + 1, indent);
      assert ls[1..] == LineList(kps, vals, indent)[i + 1..];
      var j := Join(ls[1..], ",\n");
      assert Join(ls, ",\n") == line + ",\n" + j;
      Assoc(line + ",\n", j, ",\n");
      Assoc(line, ",\n", j + ",\n");
      Assoc(a, k + p, ",\n" + l);
      Assoc(k, p, ",\n" + l);
    }
  }

  /** Where no array is empty, the printer as written prints exactly the same text. */
  lemma {:induction false} AsWrittenAgrees(v: Value, indent: string)
    requires NoEmptyArray(v)
    ensures PrettyAsWritten(v, indent) == Pretty(v, indent)
    decreases v
  {
    if v.Arr? {
      var es := v.entries;
      var deeper := indent + Step;
      var vals := seq(|es|, k requires 0 <= k < |es| => Pretty(es[k].val, deeper));
      var written := seq(|es|, k requires 0 <= k < |es| => PrettyAsWritten(es[k].val, deeper));
      forall k | 0 <= k < |es|
        ensures written[k] == vals[k]
      {
        assert es[k] in es;
        AsWrittenAgrees(es[k].val, deeper);
      }
      assert written == vals;
      var kps := KeyParts(es);
      JoinBlock(kps, vals, 0, indent);
      var j := Join(LineList(kps, vals, indent), ",\n");
      assert LineList(kps, vals, indent)[0..] == LineList(kps, vals, indent);
      Assoc("[\n" + j, ",\n", indent);
      Assoc("[\n", j, ",\n");
    }
  }

  /** The empty array as written: a comma with no element before it. */
  lemma {:induction false} EmptyArrayAsWritten(indent: string)
    ensures PrettyAsWritten(Arr([]), indent) == "[\n,\n" + indent + "]"
    ensures Pretty(Arr([]), indent) == "[\n" + indent + "]"
  {
  }

  /** That text does not read back at all, whatever follows it. */
  lemma {:induction false} EmptyArrayUnreadable(indent: string, rest: string)
    ensures ParseValue(PrettyAsWritten(Arr([]), indent) + rest).None?
  {
    var x := "," + ("\n" + indent + "]" + rest);
    assert PrettyAsWritten(Arr([]), indent) + rest == "[" + ("\n" + x);
    ValueOpen(x);
    assert SkipWs(x) == x;
    assert ParseEntries(x, 0) == EntriesAt(x, 0);
    assert ParseValue(x) == ParseScalar(x);
    assert ParseScalar(x).None? by {
      assert x[0] == ',';
      assert DigitRun(x) == 0;
    }
    assert ParseElement(x, 0).None?;
  }

  /** The corrected printer's empty array reads back as the empty array. */
  lemma {:induction false} EmptyArrayRoundTrip(indent: string, rest: string)
    requires AllWs(indent) && Stops(rest)
    ensures ParseValue(Pretty(Arr([]), indent) + rest) == Some((Arr([]), rest))
  {
    PrettyRoundTrip(Arr([]), indent, rest);
  }
}
