/** The `.env` parser, over strings of Unicode code points, and its round trip with a printer of quoted values. */
module DotEnv {
  import Text

  type Vars = map<string, string>

  /** unicode.IsLetter and unicode.IsDigit, kept abstract. */
  datatype Classes = Classes(isLetter: char -> bool, isDigit: char -> bool) {
    /** What holds of Unicode's classes: no letter or digit is white space, '=' or '#'. */
    ghost predicate Sane() {
      forall c :: isLetter(c) || isDigit(c) ==> !Text.IsSpace(c) && c != '=' && c != '#'
    }
  }

  datatype Reason = TooLong | ExpectedKeyValue | InvalidKey(key: string) | TrailingText | Unterminated

  datatype Parsed = Ok(value: string) | Bad(reason: Reason)

  // ---------------------------------------------------------------------------------------------
  // Blanks, keys
  // ---------------------------------------------------------------------------------------------

  predicate IsBlank(c: char) {
    c == ' ' || c == '\t'
  }

  function TrimBlanksLeft(s: string): string {
    if s != "" && IsBlank(s[0]) then TrimBlanksLeft(s[1..]) else s
  }

  function TrimBlanksRight(s: string): string {
    if s != "" && IsBlank(s[|s| - 1]) then TrimBlanksRight(s[..|s| - 1]) else s
  }

  predicate KeyStart(c: char, u: Classes) {
    c == '_' || u.isLetter(c)
  }

  predicate KeyChar(c: char, u: Classes) {
    c == '_' || u.isLetter(c) || u.isDigit(c)
  }

  predicate IsValidKey(k: string, u: Classes) {
    k != "" && KeyStart(k[0], u) && forall i :: 0 <= i < |k| ==> KeyChar(k[i], u)
  }

  // ---------------------------------------------------------------------------------------------
  // Values
  // ---------------------------------------------------------------------------------------------

  datatype Body = Closed(text: string, rest: string) | Open

  function Unescaped(c: char): string {
    if c == 'n' then ['\n']
    else if c == 'r' then ['\r']
    else if c == 't' then ['\t']
    else if c == '\\' then ['\\']
    else if c == '"' then ['"']
    else ['\\', c]
  }

  function Behind(text: string, b: Body): Body {
    match b
    case Closed(t, rest) => Closed(text + t, rest)
    case Open => Open
  }

  /** The inside of a double-quoted value, read from just after the opening quote. */
  function QuotedBody(s: string, escape: bool): Body {
    if s == "" then Open
    else if escape then Behind(Unescaped(s[0]), QuotedBody(s[1..], false))
    else if s[0] == '\\' then QuotedBody(s[1..], true)
    else if s[0] == '"' then Closed("", s[1..])
    else Behind([s[0]], QuotedBody(s[1..], false))
  }

  /** After the closing quote only white space or a comment may follow. */
  predicate TailAllowed(rest: string) {
    var t := Text.TrimSpace(rest);
    t == "" || t[0] == '#'
  }

  function Finish(b: Body): Parsed {
    match b
    case Open => Bad(Unterminated)
    case Closed(text, rest) => if TailAllowed(rest) then Ok(text) else Bad(TrailingText)
  }

  function DoubleQuoted(s: string): Parsed
    requires s != ""
  {
    Finish(QuotedBody(s[1..], false))
  }

  function SingleQuoted(s: string): Parsed
    requires s != ""
  {
    var end := Text.IndexOf(s[1..], '\'');
    if end < 0 then Bad(Unterminated) else Finish(Closed(s[1..][..end], s[1..][end + 1..]))
  }

  /** A blank followed by '#'. */
  predicate CommentAt(s: string, i: nat) {
    i + 1 < |s| && IsBlank(s[i]) && s[i + 1] == '#'
  }

  function CommentStart(s: string): (k: nat)
    ensures k <= |s|
    ensures forall i: nat :: i < k ==> !CommentAt(s, i)
    ensures k < |s| ==> CommentAt(s, k)
  {
    if s == "" then 0
    else if CommentAt(s, 0) then 0
    else
      var k := CommentStart(s[1..]);
      assert forall i: nat :: 0 < i ==> (CommentAt(s, i) <==> CommentAt(s[1..], i - 1));
      k + 1
  }

  function Unquoted(s: string): string {
    TrimBlanksRight(TrimBlanksLeft(s[..CommentStart(s)]))
  }

  function ParseValue(s: string): Parsed {
    var v := TrimBlanksLeft(s);
    if v == "" then Ok("")
    else if v[0] == '"' then DoubleQuoted(v)
    else if v[0] == '\'' then SingleQuoted(v)
    else Ok(Unquoted(v))
  }

  /** parseDoubleQuoted: one pass with an escape flag and a builder. */
  method ParseDoubleQuoted(s: string) returns (result: Parsed)
    requires s != ""
    ensures result == DoubleQuoted(s)
  {
    var b := "";
    var escape := false;
    ghost var whole := QuotedBody(s[1..], false);
    for i := 1 to |s|
      invariant whole == Behind(b, QuotedBody(s[i..], escape))
    {
      var c := s[i];
      assert s[i..][0] == c && s[i..][1..] == s[i + 1..];
      BehindTwice(b, if escape then Unescaped(c) else [c], QuotedBody(s[i + 1..], false));
      if escape {
        b := b + Unescaped(c);
        escape := false;
        continue;
      }
      if c == '\\' {
        escape := true;
        continue;
      }
      if c == '"' {
        assert b + "" == b;
        if TailAllowed(s[i + 1..]) {
          return Ok(b);
        }
        return Bad(TrailingText);
      }
      b := b + [c];
    }
    assert s[|s|..] == "";
    return Bad(Unterminated);
  }

  lemma BehindTwice(a: string, b: string, body: Body)
    ensures Behind(a, Behind(b, body)) == Behind(a + b, body)
  {
    if body.Closed? {
      assert a + (b + body.text) == a + b + body.text;
    }
  }

  /** parseUnquoted: the loop finds the first blank-'#'. */
  method ParseUnquoted(s: string) returns (out: string)
    ensures out == Unquoted(s)
  {
    out := s;
    var i := 0;
    while i < |out|
      invariant 0 <= i <= |s| && out == s
      invariant forall j: nat :: j < i ==> !CommentAt(s, j)
    {
      if IsBlank(out[i]) && i + 1 < |out| && out[i + 1] == '#' {
        assert CommentAt(s, i);
        out := out[..i];
        break;
      }
      i := i + 1;
    }
    assert out == s[..CommentStart(s)] by {
      if CommentStart(s) < |s| {
        assert CommentAt(s, CommentStart(s));
      }
    }
    out := TrimBlanksRight(TrimBlanksLeft(out));
  }

  // ---------------------------------------------------------------------------------------------
  // Lines and documents
  // ---------------------------------------------------------------------------------------------

  datatype Line = Skip | Assign(key: string, value: string) | Wrong(reason: Reason)

  const EXPORT := "export "

  function WithoutExport(line: string): string {
    if Text.HasPrefix(line, EXPORT) then TrimBlanksLeft(line[|EXPORT|..]) else line
  }

  function ParseAssignment(line: string, u: Classes): Line {
    var eq := Text.IndexOf(line, '=');
    if eq <= 0 then Wrong(ExpectedKeyValue)
    else
      var key := Text.TrimSpace(line[..eq]);
      if !IsValidKey(key, u) then Wrong(InvalidKey(key))
      else
        match ParseValue(line[eq + 1..])
        case Ok(value) => Assign(key, value)
        case Bad(reason) => Wrong(reason)
  }

  function ParseLine(raw: string, u: Classes): Line {
    var line := TrimBlanksLeft(raw);
    if line == "" || line[0] == '#' then Skip else ParseAssignment(WithoutExport(line), u)
  }

  /** The scanner's pieces: the text between newlines, the last one only if it is not empty. */
  function Pieces(doc: string): seq<string>
    decreases |doc|
  {
    if doc == "" then []
    else
      var i := Text.IndexOf(doc, '\n');
      if i < 0 then [doc] else [doc[..i]] + Pieces(doc[i + 1..])
  }

  function DropReturn(piece: string): string {
    if piece != "" && piece[|piece| - 1] == '\r' then piece[..|piece| - 1] else piece
  }

  /** Bytes of a code point in UTF-8. */
  function CharBytes(c: char): nat {
    var n := c as int;
    if n < 0x80 then 1 else if n < 0x800 then 2 else if n < 0x10000 then 3 else 4
  }

  function Bytes(s: string): nat {
    if s == "" then 0 else CharBytes(s[0]) + Bytes(s[1..])
  }

  /** The scanner's buffer: a line and its newline must fit. */
  const MAX_LINE_BYTES := 1024 * 1024

  predicate Fits(piece: string) {
    Bytes(piece) < MAX_LINE_BYTES
  }

  datatype Document = Vars(vars: Vars) | Failed(line: nat, reason: Reason)

  function ParsePieces(pieces: seq<string>, line: nat, vars: Vars, u: Classes): Document {
    if pieces == [] then Document.Vars(vars)
    else if !Fits(pieces[0]) then Failed(line, TooLong)
    else
      match ParseLine(DropReturn(pieces[0]), u)
      case Skip => ParsePieces(pieces[1..], line + 1, vars, u)
      case Assign(key, value) => ParsePieces(pieces[1..], line + 1, vars[key := value], u)
      case Wrong(reason) => Failed(line, reason)
  }

  function Parse(doc: string, u: Classes): Document {
    ParsePieces(Pieces(doc), 1, map[], u)
  }

  method ParseDotEnv(doc: string, u: Classes) returns (result: Document)
    ensures result == Parse(doc, u)
  {
    var vars: Vars := map[];
    var rest := doc;
    var line := 1;
    while rest != ""
      invariant line >= 1
      invariant Parse(doc, u) == ParsePieces(Pieces(rest), line, vars, u)
      decreases |rest|
    {
      var i := Text.IndexOf(rest, '\n');
      var piece := if i < 0 then rest else rest[..i];
      var tail := if i < 0 then "" else rest[i + 1..];
      assert Pieces(rest)[0] == piece && Pieces(rest)[1..] == Pieces(tail);
      if !Fits(piece) {
        return Failed(line, TooLong);
      }
      match ParseLine(DropReturn(piece), u) {
        case Skip =>
        case Assign(key, value) => vars := vars[key := value];
        case Wrong(reason) => return Failed(line, reason);
      }
      line := line + 1;
      rest := tail;
    }
    return Document.Vars(vars);
  }

  // ---------------------------------------------------------------------------------------------
  // Printing
  // ---------------------------------------------------------------------------------------------

  function EscapeChar(c: char): string {
    if c == '\n' then ['\\', 'n']
    else if c == '\r' then ['\\', 'r']
    else if c == '\t' then ['\\', 't']
    else if c == '\\' then ['\\', '\\']
    else if c == '"' then ['\\', '"']
    else [c]
  }

  function Escape(v: string): string {
    if v == "" then "" else EscapeChar(v[0]) + Escape(v[1..])
  }

  function PrintLine(key: string, value: string): string {
    key + ['='] + (['"'] + (Escape(value) + ['"']))
  }

  datatype Assignment = Assignment(key: string, value: string)

  function Print(assignments: seq<Assignment>): string {
    if assignments == [] then ""
    else PrintLine(assignments[0].key, assignments[0].value) + ['\n'] + Print(assignments[1..])
  }

  /** What the assignments amount to, a later one winning over an earlier one of the same key. */
  function Assigned(vars: Vars, assignments: seq<Assignment>): Vars
    decreases |assignments|
  {
    if assignments == [] then vars
    else Assigned(vars[assignments[0].key := assignments[0].value], assignments[1..])
  }

  // ---------------------------------------------------------------------------------------------
  // Round trip
  // ---------------------------------------------------------------------------------------------

  lemma EscapeCharReads(c: char, rest: string)
    ensures QuotedBody(EscapeChar(c) + rest, false) == Behind([c], QuotedBody(rest, false))
  {
    var e := EscapeChar(c);
    if |e| == 2 {
      assert (e + rest)[1..][1..] == rest && (e + rest)[1..][0] == e[1];
    } else {
      assert (e + rest)[1..] == rest;
    }
  }

  lemma ClosingQuoteReads(rest: string)
    ensures QuotedBody(['"'] + rest, false) == Closed("", rest)
  {
    assert (['"'] + rest)[1..] == rest;
  }

  /** Reading an escaped text up to its closing quote gives the text and what follows. */
  lemma {:induction false} EscapeReads(v: string, rest: string)
    ensures QuotedBody(Escape(v) + (['"'] + rest), false) == Closed(v, rest)
  {
    ClosingQuoteReads(rest);
    var quote := ['"'] + rest;
    if v == "" {
      assert Escape(v) + quote == quote;
    } else {
      var c, tail := v[0], v[1..];
      EscapeReads(tail, rest);
      Text.Associate(EscapeChar(c), Escape(tail), quote);
      EscapeCharReads(c, Escape(tail) + quote);
      assert [c] + tail == v;
    }
  }

  lemma {:induction false} EscapeHasNoNewline(v: string)
    ensures '\n' !in Escape(v) && '\r' !in Escape(v)
  {
    if v != "" {
      EscapeHasNoNewline(v[1..]);
      assert '\n' !in EscapeChar(v[0]) && '\r' !in EscapeChar(v[0]);
    }
  }

  lemma QuotedValueReads(v: string)
    ensures ParseValue(['"'] + (Escape(v) + ['"'])) == Ok(v)
  {
    var s := ['"'] + (Escape(v) + ['"']);
    assert TrimBlanksLeft(s) == s;
    assert s[1..] == Escape(v) + (['"'] + "");
    EscapeReads(v, "");
    assert Text.TrimSpace("") == "";
  }

  lemma {:induction false} NoSpacesToTrim(s: string)
    requires forall c :: c in s ==> !Text.IsSpace(c)
    ensures Text.TrimSpace(s) == s
  {
  }

  lemma KeyIsPlain(key: string, u: Classes)
    requires u.Sane() && IsValidKey(key, u)
    ensures '=' !in key && '\n' !in key && Text.TrimSpace(key) == key && !IsBlank(key[0]) && key[0] != '#'
    ensures forall i :: 0 <= i < |key| ==> key[i] != ' '
  {
    assert forall i :: 0 <= i < |key| ==> KeyChar(key[i], u) && !Text.IsSpace(key[i]) && key[i] != '=' && key[i] != '#';
    NoSpacesToTrim(key);
    assert Text.IsSpace('\n') && Text.IsSpace(' ') && Text.IsSpace('\t');
  }

  /** A printed line never starts with "export ": a key holds no blank and is followed by '='. */
  lemma NotExport(key: string, rest: string, u: Classes)
    requires u.Sane() && IsValidKey(key, u)
    ensures !Text.HasPrefix(key + ['='] + rest, EXPORT)
  {
    KeyIsPlain(key, u);
    var line := key + ['='] + rest;
    var end := |key|;
    assert EXPORT[6] == ' ' && forall i :: 0 <= i < 7 ==> EXPORT[i] != '=';
    assert line[end] == '=' && forall i :: 0 <= i < end ==> line[i] != ' ';
    assert |line| >= 7 ==> forall i :: 0 <= i < 7 ==> line[..7][i] == line[i];
  }

  lemma PrintedLineReads(key: string, value: string, u: Classes)
    requires u.Sane() && IsValidKey(key, u)
    ensures ParseLine(PrintLine(key, value), u) == Assign(key, value)
  {
    var quoted := ['"'] + (Escape(value) + ['"']);
    var line := PrintLine(key, value);
    KeyIsPlain(key, u);
    NotExport(key, quoted, u);
    assert line[0] == key[0];
    assert TrimBlanksLeft(line) == line;
    Text.IndexOfAt(key, '=', quoted);
    assert line[..|key|] == key && line[|key| + 1..] == quoted;
    QuotedValueReads(value);
  }

  lemma PrintedLineIsOnePiece(key: string, value: string, u: Classes)
    requires u.Sane() && IsValidKey(key, u)
    ensures '\n' !in PrintLine(key, value) && DropReturn(PrintLine(key, value)) == PrintLine(key, value)
  {
    KeyIsPlain(key, u);
    EscapeHasNoNewline(value);
    var line := PrintLine(key, value);
    assert line[|line| - 1] == '"';
  }

  lemma FirstPiece(line: string, rest: string)
    requires '\n' !in line
    ensures Pieces(line + ['\n'] + rest) == [line] + Pieces(rest)
  {
    Text.IndexOfAt(line, '\n', rest);
    var doc := line + ['\n'] + rest;
    assert doc[..|line|] == line && doc[|line| + 1..] == rest;
  }

  /** Every printed line is within the scanner's limit. */
  predicate AllFit(assignments: seq<Assignment>) {
    forall a :: a in assignments ==> Fits(PrintLine(a.key, a.value))
  }

  ghost predicate ValidKeys(assignments: seq<Assignment>, u: Classes) {
    forall a :: a in assignments ==> IsValidKey(a.key, u)
  }

  lemma {:induction false} PrintedReads(assignments: seq<Assignment>, line: nat, vars: Vars, u: Classes)
    requires u.Sane() && ValidKeys(assignments, u) && AllFit(assignments)
    ensures ParsePieces(Pieces(Print(assignments)), line, vars, u) == Document.Vars(Assigned(vars, assignments))
  {
    if assignments != [] {
      var a, rest := assignments[0], assignments[1..];
      assert a in assignments && forall b :: b in rest ==> b in assignments;
      PrintedLineReads(a.key, a.value, u);
      PrintedLineIsOnePiece(a.key, a.value, u);
      FirstPiece(PrintLine(a.key, a.value), Print(rest));
      var pieces := Pieces(Print(assignments));
      assert pieces[0] == PrintLine(a.key, a.value) && pieces[1..] == Pieces(Print(rest));
      PrintedReads(rest, line + 1, vars[a.key := a.value], u);
    }
  }

  /**
   Printing assignments with valid keys as KEY="escaped value" lines and parsing them gives exactly those
   assignments, the last one of a key winning, for every value and as long as each line fits the scanner.
   */
  lemma RoundTrip(assignments: seq<Assignment>, u: Classes)
    requires u.Sane() && ValidKeys(assignments, u) && AllFit(assignments)
    ensures Parse(Print(assignments), u) == Document.Vars(Assigned(map[], assignments))
  {
    PrintedReads(assignments, 1, map[], u);
  }

  /** No assignment from position `from` on is to `key`. */
  predicate AbsentFrom(assignments: seq<Assignment>, from: nat, key: string) {
    forall j :: from <= j < |assignments| ==> assignments[j].key != key
  }

  function Lookup(vars: Vars, key: string): Parsed {
    if key in vars then Ok(vars[key]) else Bad(InvalidKey(key))
  }

  lemma {:induction false} AssignedAbsent(vars: Vars, assignments: seq<Assignment>, key: string)
    requires AbsentFrom(assignments, 0, key)
    ensures Lookup(Assigned(vars, assignments), key) == Lookup(vars, key)
    decreases |assignments|
  {
    if assignments != [] {
      var a, rest := assignments[0], assignments[1..];
      assert a.key != key && forall j :: 0 <= j < |rest| ==> rest[j] == assignments[j + 1];
      AssignedAbsent(vars[a.key := a.value], rest, key);
    }
  }

  /** Of repeated assignments to a key, the last wins. */
  lemma {:induction false} AssignedLast(vars: Vars, assignments: seq<Assignment>, i: nat)
    requires i < |assignments| && AbsentFrom(assignments, i + 1, assignments[i].key)
    ensures Lookup(Assigned(vars, assignments), assignments[i].key) == Ok(assignments[i].value)
    decreases |assignments|
  {
    var a, rest := assignments[0], assignments[1..];
    assert forall j :: 0 <= j < |rest| ==> rest[j] == assignments[j + 1];
    if i == 0 {
      AssignedAbsent(vars[a.key := a.value], rest, a.key);
    } else {
      AssignedLast(vars[a.key := a.value], rest, i - 1);
    }
  }

  predicate DistinctKeys(assignments: seq<Assignment>) {
    forall i, j :: 0 <= i < j < |assignments| ==> assignments[i].key != assignments[j].key
  }

  predicate Holds(m: Vars, a: Assignment) {
    a.key in m && m[a.key] == a.value
  }

  /** `m` is exactly what the assignments say, one for each of its keys. */
  ghost predicate Lists(assignments: seq<Assignment>, m: Vars) {
    && DistinctKeys(assignments)
    && (forall i :: 0 <= i < |assignments| ==> Holds(m, assignments[i]))
    && (forall k :: k in m ==> !AbsentFrom(assignments, 0, k))
  }

  lemma ListedReads(assignments: seq<Assignment>, m: Vars, key: string)
    requires Lists(assignments, m)
    ensures Lookup(Assigned(map[], assignments), key) == Lookup(m, key)
  {
    if AbsentFrom(assignments, 0, key) {
      AssignedAbsent(map[], assignments, key);
    } else {
      var i :| 0 <= i < |assignments| && assignments[i].key == key;
      assert Holds(m, assignments[i]);
      AssignedLast(map[], assignments, i);
    }
  }

  lemma SameLookups(m: Vars, n: Vars)
    requires forall k :: Lookup(m, k) == Lookup(n, k)
    ensures m == n
  {
    forall k ensures k in m <==> k in n {
      assert Lookup(m, k) == Lookup(n, k);
    }
    forall k | k in m ensures m[k] == n[k] {
      assert Lookup(m, k) == Lookup(n, k);
    }
  }

  lemma ListsWithHead(m: Vars, k: string, tail: seq<Assignment>)
    requires k in m && Lists(tail, m - {k})
    ensures Lists([Assignment(k, m[k])] + tail, m)
  {
    var all := [Assignment(k, m[k])] + tail;
    forall i | 0 <= i < |tail| ensures tail[i].key != k && Holds(m, tail[i]) {
      assert Holds(m - {k}, tail[i]);
    }
    forall j | j in m ensures !AbsentFrom(all, 0, j) {
      if j == k {
        assert all[0].key == j;
      } else {
        assert !AbsentFrom(tail, 0, j);
        var i :| 0 <= i < |tail| && tail[i].key == j;
        assert all[i + 1].key == j;
      }
    }
  }

  /** Every map can be listed so. */
  lemma {:induction false} Listing(m: Vars) returns (assignments: seq<Assignment>)
    ensures Lists(assignments, m)
    decreases |m|
  {
    assignments := [];
    if m != map[] {
      var k :| k in m;
      var rest := m - {k};
      assert |m| == |rest| + 1 by { assert m == rest[k := m[k]]; }
      var tail := Listing(rest);
      ListsWithHead(m, k, tail);
      assignments := [Assignment(k, m[k])] + tail;
    }
  }

  /** Printing any map with valid keys, in any order of its keys, and parsing it gives the map back. */
  lemma MapRoundTrip(assignments: seq<Assignment>, m: Vars, u: Classes)
    requires u.Sane() && Lists(assignments, m) && ValidKeys(assignments, u) && AllFit(assignments)
    ensures Parse(Print(assignments), u) == Document.Vars(m)
  {
    RoundTrip(assignments, u);
    forall k ensures Lookup(Assigned(map[], assignments), k) == Lookup(m, k) {
      ListedReads(assignments, m, k);
    }
    SameLookups(Assigned(map[], assignments), m);
  }

  // ---------------------------------------------------------------------------------------------
  // Every form of a value
  // ---------------------------------------------------------------------------------------------

  predicate AllBlank(s: string) {
    forall c :: c in s ==> c == ' ' || c == '\t'
  }

  lemma {:induction false} BlanksOffLeft(a: string, s: string)
    requires AllBlank(a)
    ensures TrimBlanksLeft(a + s) == TrimBlanksLeft(s)
  {
    if a == "" {
      assert a + s == s;
    } else {
      assert (a + s)[1..] == a[1..] + s && a[0] in a;
      assert forall c :: c in a[1..] ==> c in a;
      BlanksOffLeft(a[1..], s);
    }
  }

  lemma {:induction false} BlanksOffRight(s: string, b: string)
    requires AllBlank(b)
    ensures TrimBlanksRight(s + b) == TrimBlanksRight(s)
    decreases |b|
  {
    if b == "" {
      assert s + b == s;
    } else {
      assert (s + b)[..|s + b| - 1] == s + b[..|b| - 1] && b[|b| - 1] in b;
      var init := b[..|b| - 1];
      forall c | c in init ensures c == ' ' || c == '\t' {
        assert c in b;
      }
      BlanksOffRight(s, init);
    }
  }

  /** A bare value: it neither starts nor ends with a blank, does not start with a quote, and holds no blank-'#'. */
  predicate Bare(v: string) {
    && v != "" && !IsBlank(v[0]) && v[0] != '"' && v[0] != '\'' && !IsBlank(v[|v| - 1])
    && forall i :: 0 <= i && i + 1 < |v| && v[i + 1] == '#' ==> v[i] != ' ' && v[i] != '\t'
  }

  /** In particular: no blanks, no quotes, no '#'. */
  lemma SimpleIsBare(v: string)
    requires v != "" && forall c :: c in v ==> c != ' ' && c != '\t' && c != '"' && c != '\'' && c != '#'
    ensures Bare(v)
  {
    assert forall i :: 0 <= i < |v| ==> v[i] in v;
  }

  /** What may follow a bare value: blanks, and behind at least one blank a comment. */
  predicate BareTail(tail: string, pad: string, comment: string) {
    AllBlank(pad) && (tail == pad || (pad != "" && tail == pad + (['#'] + comment)))
  }

  lemma BareCut(v: string, tail: string, pad: string, comment: string)
    requires Bare(v) && BareTail(tail, pad, comment)
    ensures (v + tail)[..CommentStart(v + tail)] == v + pad[..if tail == pad then |pad| else |pad| - 1]
  {
    var s, k := v + tail, CommentStart(v + tail);
    if tail == pad {
      forall i | |v| <= i < |s| ensures s[i] != '#' {
        assert s[i] == pad[i - |v|] && pad[i - |v|] in pad;
      }
      assert forall i: nat :: !CommentAt(s, i);
      assert k == |s|;
      assert s[..k] == v + pad[..|pad|];
    } else {
      var at := |v| + |pad| - 1;
      assert s[at] == pad[|pad| - 1] && pad[|pad| - 1] in pad && s[at + 1] == '#';
      assert CommentAt(s, at);
      forall i: nat | i < at ensures !CommentAt(s, i) {
        if i + 1 >= |v| {
          assert s[i + 1] == pad[i + 1 - |v|] && pad[i + 1 - |v|] in pad;
        }
      }
      assert k == at;
      assert s[..k] == v + pad[..|pad| - 1];
    }
  }

  /** A bare value means itself, whatever blanks stand around it and whatever comment follows. */
  lemma BareReads(lead: string, v: string, tail: string, pad: string, comment: string)
    requires AllBlank(lead) && Bare(v) && BareTail(tail, pad, comment)
    ensures ParseValue(lead + (v + tail)) == Ok(v)
  {
    var s := v + tail;
    BlanksOffLeft(lead, s);
    assert TrimBlanksLeft(s) == s;
    BareCut(v, tail, pad, comment);
    var rest := pad[..if tail == pad then |pad| else |pad| - 1];
    assert forall c :: c in rest ==> c in pad;
    assert TrimBlanksLeft(v + rest) == v + rest;
    BlanksOffRight(v, rest);
  }

  /** A value of nothing but blanks is empty. */
  lemma BlankReads(lead: string)
    requires AllBlank(lead)
    ensures ParseValue(lead) == Ok("")
  {
    BlanksOffLeft(lead, "");
    assert lead + "" == lead;
  }

  /** But a comment behind nothing is the value: a '#' starts a comment only behind a blank of the value itself. */
  lemma CommentBehindNothingIsValue(lead: string, comment: string)
    requires AllBlank(lead) && Bare(['#'] + comment)
    ensures ParseValue(lead + (['#'] + comment)) == Ok(['#'] + comment)
  {
    BareReads(lead, ['#'] + comment, "", "", "");
    assert ['#'] + comment + "" == ['#'] + comment;
  }

  /** Behind a closing quote only white space, and then perhaps a comment. */
  predicate QuoteTail(tail: string, pad: string, comment: string) {
    Text.AllSpace(pad) && (tail == pad || tail == pad + (['#'] + comment))
  }

  lemma QuoteTailAllowed(tail: string, pad: string, comment: string)
    requires QuoteTail(tail, pad, comment)
    ensures TailAllowed(tail)
  {
    if tail == pad {
      Text.TrimSpaceOf(tail, "", "");
      assert tail + ("" + "") == tail;
    } else {
      var rest := ['#'] + comment;
      assert !Text.IsSpace('#') && Text.TrimLeft(rest) == rest;
      Text.TrimLeftPadded(pad, rest);
      TrimRightKeepsFirst(rest);
    }
  }

  lemma {:induction false} TrimRightKeepsFirst(s: string)
    requires s != "" && !Text.IsSpace(s[0])
    ensures Text.TrimRight(s) != "" && Text.TrimRight(s)[0] == s[0]
    decreases |s|
  {
    if Text.IsSpace(s[|s| - 1]) {
      TrimRightKeepsFirst(s[..|s| - 1]);
    }
  }

  /** A single-quoted value is taken as it stands. */
  lemma SingleQuotedReads(lead: string, v: string, tail: string, pad: string, comment: string)
    requires AllBlank(lead) && '\'' !in v && QuoteTail(tail, pad, comment)
    ensures ParseValue(lead + (['\''] + (v + ['\''] + tail))) == Ok(v)
  {
    var s := ['\''] + (v + ['\''] + tail);
    BlanksOffLeft(lead, s);
    assert TrimBlanksLeft(s) == s && s[1..] == v + ['\''] + tail;
    Text.IndexOfAt(v, '\'', tail);
    assert s[1..][..|v|] == v && s[1..][|v| + 1..] == tail;
    QuoteTailAllowed(tail, pad, comment);
  }

  /** A double-quoted one has its escapes read. */
  lemma DoubleQuotedReads(lead: string, v: string, tail: string, pad: string, comment: string)
    requires AllBlank(lead) && QuoteTail(tail, pad, comment)
    ensures ParseValue(lead + (['"'] + (Escape(v) + (['"'] + tail)))) == Ok(v)
  {
    var s := ['"'] + (Escape(v) + (['"'] + tail));
    BlanksOffLeft(lead, s);
    assert TrimBlanksLeft(s) == s && s[1..] == Escape(v) + (['"'] + tail);
    EscapeReads(v, tail);
    QuoteTailAllowed(tail, pad, comment);
  }

  /** What the escapes are; any other character behind a backslash keeps it. */
  lemma EscapesExactly(c: char, rest: string)
    ensures QuotedBody(['\\', c] + rest, false)
            == Behind(if c == 'n' then ['\n'] else if c == 'r' then ['\r'] else if c == 't' then ['\t']
                      else if c == '\\' then ['\\'] else if c == '"' then ['"'] else ['\\', c],
                      QuotedBody(rest, false))
  {
    var s := ['\\', c] + rest;
    assert s[1..] == [c] + rest && s[1..][1..] == rest;
  }

  /** A quote that is not closed is an error. */
  lemma OpenQuoteFails(lead: string, v: string)
    requires AllBlank(lead) && '\'' !in v
    ensures ParseValue(lead + (['\''] + v)) == Bad(Unterminated)
  {
    var open := ['\''] + v;
    BlanksOffLeft(lead, open);
    assert TrimBlanksLeft(open) == open && open[1..] == v;
  }

  /** So is text behind one that is, whether the quotes are single... */
  lemma SingleQuoteTailFails(lead: string, v: string, tail: string)
    requires AllBlank(lead) && '\'' !in v && !TailAllowed(tail)
    ensures ParseValue(lead + (['\''] + (v + ['\''] + tail))) == Bad(TrailingText)
  {
    var s := ['\''] + (v + ['\''] + tail);
    BlanksOffLeft(lead, s);
    assert TrimBlanksLeft(s) == s && s[1..] == v + ['\''] + tail;
    Text.IndexOfAt(v, '\'', tail);
    assert s[1..][..|v|] == v && s[1..][|v| + 1..] == tail;
  }

  /** ...or double. */
  lemma DoubleQuoteTailFails(lead: string, v: string, tail: string)
    requires AllBlank(lead) && !TailAllowed(tail)
    ensures ParseValue(lead + (['"'] + (Escape(v) + (['"'] + tail)))) == Bad(TrailingText)
  {
    var s := ['"'] + (Escape(v) + (['"'] + tail));
    BlanksOffLeft(lead, s);
    assert TrimBlanksLeft(s) == s && s[1..] == Escape(v) + (['"'] + tail);
    EscapeReads(v, tail);
  }

  /** Text is not allowed behind a quote when its first character that is not white space is not '#'. */
  lemma TextBehindQuote(pad: string, text: string)
    requires Text.AllSpace(pad) && text != "" && !Text.IsSpace(text[0]) && text[0] != '#'
    ensures !TailAllowed(pad + text)
  {
    assert Text.TrimLeft(text) == text;
    Text.TrimLeftPadded(pad, text);
    TrimRightKeepsFirst(text);
  }

  // ---------------------------------------------------------------------------------------------
  // Every form of a line
  // ---------------------------------------------------------------------------------------------

  /** A key: a letter or '_', then letters, digits and '_'. */
  ghost predicate Named(key: string, u: Classes) {
    && key != "" && (key[0] == '_' || u.isLetter(key[0]))
    && forall c :: c in key ==> c == '_' || u.isLetter(c) || u.isDigit(c)
  }

  lemma ValidExactly(key: string, u: Classes)
    ensures IsValidKey(key, u) <==> Named(key, u)
  {
    assert forall i :: 0 <= i < |key| ==> key[i] in key;
  }

  function Assigns(key: string, value: Parsed): Line {
    match value
    case Ok(v) => Assign(key, v)
    case Bad(reason) => Wrong(reason)
  }

  /** A key, perhaps with blanks behind it, '=' and a value. */
  function KeyValue(key: string, pad: string, rest: string): string {
    key + pad + ['='] + rest
  }

  /** The one name a blank may not follow: "export =v" has no key. */
  predicate NotTheKeyword(key: string, pad: string) {
    key != "export" || pad == ""
  }

  lemma KeyNotExport(key: string, pad: string, rest: string, u: Classes)
    requires u.Sane() && IsValidKey(key, u) && AllBlank(pad) && NotTheKeyword(key, pad)
    ensures !Text.HasPrefix(KeyValue(key, pad, rest), EXPORT)
  {
    KeyIsPlain(key, u);
    var line, n := KeyValue(key, pad, rest), |key|;
    var word := "export";
    assert EXPORT == word + [' '];
    assert forall i :: 0 <= i < 6 ==> EXPORT[i] != ' ' && EXPORT[i] != '\t' && EXPORT[i] != '=';
    assert pad != "" ==> pad[0] in pad && line[n] == pad[0];
    assert pad == "" ==> line[n] == '=';
    assert line[..n] == key && forall i :: 0 <= i < n ==> line[i] == key[i] && line[i] != ' ';
    assert |line| >= 7 ==> forall i :: 0 <= i < 7 ==> line[..7][i] == line[i];
    assert n < 6 && |line| >= 7 ==> line[..7][n] != EXPORT[n];
    assert n > 6 ==> line[..7][6] != EXPORT[6];
    assert n == 6 && pad == "" ==> line[..7][6] != EXPORT[6];
    assert n == 6 && |line| >= 7 ==> line[..7][..6] == key;
    assert EXPORT[..6] == word;
  }

  lemma AssignmentReads(key: string, pad: string, rest: string, u: Classes)
    requires u.Sane() && IsValidKey(key, u) && AllBlank(pad)
    ensures ParseAssignment(KeyValue(key, pad, rest), u) == Assigns(key, ParseValue(rest))
  {
    KeyIsPlain(key, u);
    var line, left := KeyValue(key, pad, rest), key + pad;
    assert '=' !in left;
    Text.IndexOfAt(left, '=', rest);
    assert line[..|left|] == left && line[|left| + 1..] == rest;
    assert forall i :: 0 <= i < |key| ==> KeyChar(key[i], u) && !Text.IsSpace(key[i]);
    assert Text.AllSpace(pad);
    Text.TrimSpaceOf("", key, pad);
    assert "" + (key + pad) == left;
  }

  /** Such a line assigns whatever the value reads as; blanks in front of it change nothing. */
  lemma KeyedLine(lead: string, key: string, pad: string, rest: string, u: Classes)
    requires u.Sane() && Named(key, u) && AllBlank(lead) && AllBlank(pad) && NotTheKeyword(key, pad)
    ensures ParseLine(lead + KeyValue(key, pad, rest), u) == Assigns(key, ParseValue(rest))
  {
    ValidExactly(key, u);
    KeyIsPlain(key, u);
    var line := KeyValue(key, pad, rest);
    assert line[0] == key[0] && TrimBlanksLeft(line) == line;
    BlanksOffLeft(lead, line);
    AssignmentReads(key, pad, rest, u);
    KeyNotExport(key, pad, rest, u);
  }

  /** Nor does "export " in front of it. */
  lemma ExportedLine(lead: string, more: string, key: string, pad: string, rest: string, u: Classes)
    requires u.Sane() && Named(key, u) && AllBlank(lead) && AllBlank(more) && AllBlank(pad)
    ensures ParseLine(lead + ("export " + (more + KeyValue(key, pad, rest))), u) == Assigns(key, ParseValue(rest))
  {
    ValidExactly(key, u);
    KeyIsPlain(key, u);
    var line := KeyValue(key, pad, rest);
    var exported := "export " + (more + line);
    assert line[0] == key[0] && TrimBlanksLeft(line) == line;
    BlanksOffLeft(more, line);
    assert exported[0] == 'e' && TrimBlanksLeft(exported) == exported;
    BlanksOffLeft(lead, exported);
    assert exported[..7] == EXPORT && exported[7..] == more + line;
    AssignmentReads(key, pad, rest, u);
  }

  /** Lines of nothing but blanks, and lines whose first other character is '#', assign nothing. */
  lemma BlankAndCommentLines(lead: string, comment: string, u: Classes)
    requires AllBlank(lead)
    ensures ParseLine(lead, u) == Skip && ParseLine(lead + (['#'] + comment), u) == Skip
  {
    BlanksOffLeft(lead, "");
    assert lead + "" == lead;
    BlanksOffLeft(lead, ['#'] + comment);
  }

  /** Any other line needs a key and a '='. */
  lemma BadLines(key: string, rest: string, u: Classes)
    requires key != "" && '=' !in key && !IsBlank(key[0]) && key[0] != '#'
    requires !Text.HasPrefix(key + ['='] + rest, EXPORT) && !Text.HasPrefix(key, EXPORT)
    ensures ParseLine(key, u) == Wrong(ExpectedKeyValue)
    ensures ParseLine(['='] + rest, u) == Wrong(ExpectedKeyValue)
    ensures !Named(Text.TrimSpace(key), u) ==>
              ParseLine(key + ['='] + rest, u) == Wrong(InvalidKey(Text.TrimSpace(key)))
  {
    assert TrimBlanksLeft(key) == key && (['='] + rest)[0] == '=' && EXPORT[0] == 'e';
    assert |rest| >= 6 ==> (['='] + rest)[..7][0] == '=';
    Text.IndexOfAt("", '=', rest);
    assert "" + ['='] + rest == ['='] + rest;
    var line := key + ['='] + rest;
    assert line[0] == key[0] && TrimBlanksLeft(line) == line;
    Text.IndexOfAt(key, '=', rest);
    assert line[..|key|] == key;
    ValidExactly(Text.TrimSpace(key), u);
  }

  // ---------------------------------------------------------------------------------------------
  // Whole documents, line by line
  // ---------------------------------------------------------------------------------------------

  /** What a document amounts to from one of its lines on, given how that line reads. */
  function Onward(read: Line, rest: string, n: nat, vars: Vars, u: Classes): Document {
    match read
    case Skip => ParsePieces(Pieces(rest), n + 1, vars, u)
    case Assign(key, value) => ParsePieces(Pieces(rest), n + 1, vars[key := value], u)
    case Wrong(reason) => Failed(n, reason)
  }

  /** A line of at most a mebibyte less one byte is read; a carriage return before its newline is not part of it. */
  lemma LineByLine(line: string, rest: string, n: nat, vars: Vars, u: Classes)
    requires '\n' !in line && (line == "" || line[|line| - 1] != '\r')
    ensures Bytes(line) < 1048576 ==>
              ParsePieces(Pieces(line + ['\n'] + rest), n, vars, u) == Onward(ParseLine(line, u), rest, n, vars, u)
    ensures Bytes(line + ['\r']) < 1048576 ==>
              ParsePieces(Pieces(line + ['\r'] + ['\n'] + rest), n, vars, u)
              == Onward(ParseLine(line, u), rest, n, vars, u)
    ensures Bytes(line) >= 1048576 ==>
              ParsePieces(Pieces(line + ['\n'] + rest), n, vars, u) == Failed(n, TooLong)
  {
    FirstPiece(line, rest);
    FirstPiece(line + ['\r'], rest);
    assert (line + ['\r'])[..|line|] == line;
    assert ([line] + Pieces(rest))[1..] == Pieces(rest) && ([line + ['\r']] + Pieces(rest))[1..] == Pieces(rest);
  }

  /** The same for a last line without a newline. */
  lemma LastLine(line: string, n: nat, vars: Vars, u: Classes)
    requires line != "" && '\n' !in line && line[|line| - 1] != '\r' && Bytes(line) < 1048576
    ensures ParsePieces(Pieces(line), n, vars, u) == Onward(ParseLine(line, u), "", n, vars, u)
  {
    assert Pieces(line) == [line] && [line][1..] == [];
  }

  /** KEY=v, perhaps exported, perhaps with blanks around the value and a comment: one variable, and exactly v. */
  lemma PlainAssignment(lead: string, key: string, gap: string, v: string, tail: string, pad: string, comment: string,
                        u: Classes)
    requires u.Sane() && Named(key, u) && AllBlank(lead) && AllBlank(gap)
    requires Bare(v) && BareTail(tail, pad, comment)
    requires var line := lead + KeyValue(key, "", gap + (v + tail));
             Bytes(line) < 1048576 && '\n' !in line && line[|line| - 1] != '\r'
    ensures Parse(lead + KeyValue(key, "", gap + (v + tail)), u) == Document.Vars(map[key := v])
  {
    BareReads(gap, v, tail, pad, comment);
    KeyedLine(lead, key, "", gap + (v + tail), u);
    LastLine(lead + KeyValue(key, "", gap + (v + tail)), 1, map[], u);
  }
}
