/** One-pass `${VAR}` interpolation, following the Compose file interpolation reference. */
module Interpolate {
  import Text

  type Vars = map<string, string>

  predicate IsNameStart(c: char) {
    c == '_' || 'a' <= c <= 'z' || 'A' <= c <= 'Z'
  }

  predicate IsNameChar(c: char) {
    IsNameStart(c) || '0' <= c <= '9'
  }

  predicate IsName(s: string) {
    s != "" && IsNameStart(s[0]) && forall c :: c in s ==> IsNameChar(c)
  }

  /** How many name characters s begins with. */
  function NameRun(s: string): (n: nat)
    ensures n <= |s| && (forall c :: c in s[..n] ==> IsNameChar(c)) && (n < |s| ==> !IsNameChar(s[n]))
  {
    if s == "" || !IsNameChar(s[0]) then 0
    else
      var n := NameRun(s[1..]);
      assert s[..n + 1] == [s[0]] + s[1..][..n];
      n + 1
  }

  lemma {:induction false} NameRunOf(name: string, rest: string)
    requires forall c :: c in name ==> IsNameChar(c)
    requires rest == "" || !IsNameChar(rest[0])
    ensures NameRun(name + rest) == |name|
  {
    if name == "" {
      assert name + rest == rest;
    } else {
      assert name[0] in name && (name + rest)[1..] == name[1..] + rest;
      assert forall c :: c in name[1..] ==> c in name;
      NameRunOf(name[1..], rest);
    }
  }

  // ---------------------------------------------------------------------------------------------
  // Tokens
  // ---------------------------------------------------------------------------------------------

  datatype Token = Escaped | Braced(inner: string) | Bare(name: string) | Literal(c: char)

  /** The text a token stands for. */
  function Source(t: Token): (s: string)
    ensures |s| >= 1
  {
    match t
    case Escaped => ['$', '$']
    case Braced(inner) => ['$', '{'] + inner + ['}']
    case Bare(name) => ['$'] + name
    case Literal(c) => [c]
  }

  /** The token at the front of s: an interpolation construct if one matches here, else one literal character. */
  function Scan(s: string): (t: Token)
    requires s != ""
    ensures |Source(t)| <= |s| && s[..|Source(t)|] == Source(t)
  {
    if s[0] != '$' || |s| == 1 then Literal(s[0])
    else if s[1] == '$' then Escaped
    else if s[1] == '{' && '}' in s[2..] then
      var n := Text.IndexOf(s[2..], '}');
      assert s[..2 + n + 1] == ['$', '{'] + s[2..][..n] + ['}'];
      Braced(s[2..][..n])
    else if IsNameStart(s[1]) then
      var n := NameRun(s[1..]);
      assert s[..1 + n] == ['$'] + s[1..][..n];
      Bare(s[1..][..n])
    else Literal('$')
  }

  function Tokens(s: string): seq<Token>
    decreases |s|
  {
    if s == "" then [] else [Scan(s)] + Tokens(s[|Source(Scan(s))|..])
  }

  function Sources(ts: seq<Token>): string {
    if ts == [] then "" else Source(ts[0]) + Sources(ts[1..])
  }

  // ---------------------------------------------------------------------------------------------
  // The braced form
  // ---------------------------------------------------------------------------------------------

  datatype Reference = Malformed | Plain(name: string) | Modified(name: string, colon: bool, op: char, arg: string)

  predicate IsOp(c: char) {
    c == '-' || c == '?' || c == '+'
  }

  /** What bracedPattern makes of the inside of ${...}. */
  function ParseBraced(inner: string): Reference {
    if inner == "" || !IsNameStart(inner[0]) then Malformed
    else
      var n := NameRun(inner);
      var name, rest := inner[..n], inner[n..];
      if rest == "" then Plain(name)
      else
        var colon := rest[0] == ':';
        var tail := if colon then rest[1..] else rest;
        if tail != "" && IsOp(tail[0]) then Modified(name, colon, tail[0], tail[1..]) else Malformed
  }

  datatype Error = BadReference(inner: string) | Required(name: string, message: string)

  datatype Result = Ok(value: string) | Err(error: Error)

  function Lookup(vars: Vars, name: string): string {
    if name in vars then vars[name] else ""
  }

  /** The variable counts as missing: unset, or empty when the modifier has a colon. */
  predicate Missing(vars: Vars, name: string, colon: bool) {
    name !in vars || (colon && vars[name] == "")
  }

  const REQUIRED_MESSAGE := "variable is required"

  function RequiredError(name: string, arg: string): Error {
    var msg := Text.TrimSpace(arg);
    Required(name, if msg == "" then REQUIRED_MESSAGE else msg)
  }

  /** expandBraced, with its conditions as the program spells them. */
  function ExpandBraced(inner: string, vars: Vars): Result {
    match ParseBraced(inner)
    case Malformed => Err(BadReference(inner))
    case Plain(name) => Ok(Lookup(vars, name))
    case Modified(name, colon, op, arg) =>
      var isSet := name in vars;
      var val := Lookup(vars, name);
      var unsetOrEmpty := !isSet || (colon && val == "");
      var unsetOnly := !isSet;
      if op == '-' then
        if (colon && unsetOrEmpty) || (!colon && unsetOnly) then Ok(arg) else Ok(val)
      else if op == '?' then
        if (colon && unsetOrEmpty) || (!colon && unsetOnly) then Err(RequiredError(name, arg)) else Ok(val)
      else
        if (colon && isSet && val != "") || (!colon && isSet) then Ok(arg) else Ok("")
  }

  function Value(t: Token, vars: Vars): Result {
    match t
    case Escaped => Ok("$")
    case Braced(inner) => ExpandBraced(inner, vars)
    case Bare(name) => Ok(Lookup(vars, name))
    case Literal(c) => Ok([c])
  }

  // ---------------------------------------------------------------------------------------------
  // Expand
  // ---------------------------------------------------------------------------------------------

  /** The values of the tokens in order, or the first error among them. */
  function Render(ts: seq<Token>, vars: Vars): Result {
    if ts == [] then Ok("")
    else
      var first := Value(ts[0], vars);
      if first.Err? then first
      else
        var rest := Render(ts[1..], vars);
        if rest.Err? then rest else Ok(first.value + rest.value)
  }

  function Expanded(s: string, vars: Vars): Result {
    Render(Tokens(s), vars)
  }

  datatype MaybeError = NoError | First(error: Error)

  /** What the finished scan will return, given what it has done so far. */
  function Conclude(firstErr: MaybeError, out: string, rest: Result): Result {
    if firstErr.First? then Err(firstErr.error)
    else if rest.Err? then rest
    else Ok(out + rest.value)
  }

  lemma ScanStep(s: string, vars: Vars, firstErr: MaybeError, out: string)
    requires s != ""
    ensures var v := Value(Scan(s), vars);
            var tail := s[|Source(Scan(s))|..];
            Conclude(firstErr, out, Expanded(s, vars))
            == if v.Ok? then Conclude(firstErr, out + v.value, Expanded(tail, vars))
               else Conclude(if firstErr.NoError? then First(v.error) else firstErr, out, Expanded(tail, vars))
  {
    var tail := s[|Source(Scan(s))|..];
    assert Tokens(s)[1..] == Tokens(tail);
    var v, rest := Value(Scan(s), vars), Expanded(tail, vars);
    if v.Ok? && rest.Ok? {
      assert out + (v.value + rest.value) == out + v.value + rest.value;
    }
  }

  /** Expand: one scan from left to right, remembering the first error. */
  method Expand(s: string, vars: Vars) returns (result: Result)
    ensures result == Expanded(s, vars)
  {
    var out := "";
    var firstErr := NoError;
    var pos := 0;
    assert s[0..] == s;
    while pos < |s|
      invariant 0 <= pos <= |s|
      invariant Expanded(s, vars) == Conclude(firstErr, out, Expanded(s[pos..], vars))
    {
      var token := Scan(s[pos..]);
      var next := pos + |Source(token)|;
      assert s[pos..][|Source(token)|..] == s[next..];
      ScanStep(s[pos..], vars, firstErr, out);
      var v := Value(token, vars);
      if v.Err? {
        if firstErr.NoError? {
          firstErr := First(v.error);
        }
      } else {
        out := out + v.value;
      }
      pos := next;
    }
    assert s[|s|..] == "";
    if firstErr.First? {
      return Err(firstErr.error);
    }
    return Ok(out);
  }

  // ---------------------------------------------------------------------------------------------
  // The scanner against the pattern it implements
  // ---------------------------------------------------------------------------------------------

  /** The three alternatives of tokenPattern: s[..n] is a match at the front of s (names match greedily). */
  ghost predicate PatternMatch(s: string, n: nat) {
    && 2 <= n <= |s| && s[0] == '$'
    && (|| (n == 2 && s[1] == '$')
        || (n >= 3 && s[1] == '{' && s[n - 1] == '}' && '}' !in s[2..n - 1])
        || (IsNameStart(s[1]) && (forall c :: c in s[1..n] ==> IsNameChar(c)) && (n < |s| ==> !IsNameChar(s[n]))))
  }

  /** Where the pattern matches, the scanner takes exactly that match; where it does not, one literal character. */
  lemma ScanFollowsPattern(s: string, n: nat)
    requires s != ""
    ensures PatternMatch(s, n) ==> !Scan(s).Literal? && |Source(Scan(s))| == n
    ensures !Scan(s).Literal? ==> PatternMatch(s, |Source(Scan(s))|)
  {
    if |s| > 1 && s[0] == '$' && s[1] == '{' {
      if PatternMatch(s, n) {
        assert s[n - 1] in s[2..];
        BraceEnds(s, n);
      }
      if '}' in s[2..] {
        var i := Text.IndexOf(s[2..], '}');
        assert s[2..2 + i] == s[2..][..i];
      }
    } else if |s| > 1 && s[0] == '$' && IsNameStart(s[1]) {
      var m := NameRun(s[1..]);
      assert s[1..1 + m] == s[1..][..m];
      assert m >= 1;
      if PatternMatch(s, n) {
        NameEnds(s, n);
      }
    }
  }

  lemma BraceEnds(s: string, n: nat)
    requires 3 <= n <= |s| && s[n - 1] == '}' && '}' !in s[2..n - 1]
    ensures Text.IndexOf(s[2..], '}') == n - 3
  {
    assert s[2..] == s[2..n - 1] + ['}'] + s[n..];
    Text.IndexOfAt(s[2..n - 1], '}', s[n..]);
  }

  lemma NameEnds(s: string, n: nat)
    requires 2 <= n <= |s| && (forall c :: c in s[1..n] ==> IsNameChar(c)) && (n < |s| ==> !IsNameChar(s[n]))
    ensures NameRun(s[1..]) == n - 1
  {
    assert s[1..] == s[1..n] + s[n..];
    NameRunOf(s[1..n], s[n..]);
  }

  /** The tokens spell the input: nothing is dropped, moved or read twice. */
  lemma {:induction false} TokensSpellInput(s: string)
    ensures Sources(Tokens(s)) == s
    decreases |s|
  {
    if s != "" {
      TokensSpellInput(s[|Source(Scan(s))|..]);
    }
  }

  // ---------------------------------------------------------------------------------------------
  // Doubling every '$' quotes a text
  // ---------------------------------------------------------------------------------------------

  function Quoted(s: string): string {
    if s == "" then "" else (if s[0] == '$' then ['$', '$'] else [s[0]]) + Quoted(s[1..])
  }

  /** What stands in front of an expansion goes in front of its value. */
  function InFront(s: string, rest: Result): Result {
    if rest.Err? then rest else Ok(s + rest.value)
  }

  lemma InFrontTwice(s: string, rest: Result)
    requires s != ""
    ensures InFront([s[0]], InFront(s[1..], rest)) == InFront(s, rest)
  {
    if rest.Ok? {
      assert [s[0]] + (s[1..] + rest.value) == s + rest.value;
    }
  }

  /** A quoted text in front is cut into tokens of its own, whatever follows. */
  lemma {:induction false} QuotedPrefix(s: string, rest: string, vars: Vars)
    ensures Expanded(Quoted(s) + rest, vars)
            == if Expanded(rest, vars).Err? then Expanded(rest, vars) else Ok(s + Expanded(rest, vars).value)
  {
    QuotedInFront(s, rest, vars);
  }

  lemma {:induction false} QuotedInFront(s: string, rest: string, vars: Vars)
    ensures Expanded(Quoted(s) + rest, vars) == InFront(s, Expanded(rest, vars))
  {
    if s == "" {
      assert Quoted(s) + rest == rest;
      assert Expanded(rest, vars).Ok? ==> s + Expanded(rest, vars).value == Expanded(rest, vars).value;
    } else {
      var head := if s[0] == '$' then ['$', '$'] else [s[0]];
      var tail := Quoted(s[1..]) + rest;
      QuotedInFront(s[1..], rest, vars);
      assert Quoted(s) + rest == head + tail;
      HeadToken(head, tail, if s[0] == '$' then Escaped else Literal(s[0]), vars);
      InFrontTwice(s, Expanded(rest, vars));
    }
  }

  lemma HeadToken(head: string, tail: string, t: Token, vars: Vars)
    requires Source(t) == head && (t == Escaped || (t.Literal? && t.c != '$'))
    ensures Expanded(head + tail, vars)
            == if Expanded(tail, vars).Err? then Expanded(tail, vars)
               else Ok((if t == Escaped then "$" else [t.c]) + Expanded(tail, vars).value)
  {
    var s := head + tail;
    assert Scan(s) == t;
    assert s[|head|..] == tail;
    assert Tokens(s)[1..] == Tokens(tail);
  }

  /** For every text and every variables: interpolating the quoted text gives the text back. */
  lemma {:induction false} QuotingInverts(s: string, vars: Vars)
    ensures Expanded(Quoted(s), vars) == Ok(s)
  {
    assert Quoted(s) + "" == Quoted(s) && s + "" == s;
    QuotedPrefix(s, "", vars);
  }

  // ---------------------------------------------------------------------------------------------
  // Values go in verbatim
  // ---------------------------------------------------------------------------------------------

  lemma BracedInFront(inner: string, rest: string, vars: Vars)
    requires '}' !in inner
    ensures var v := ExpandBraced(inner, vars);
            Expanded(Source(Braced(inner)) + rest, vars)
            == if v.Err? then v
               else if Expanded(rest, vars).Err? then Expanded(rest, vars)
               else Ok(v.value + Expanded(rest, vars).value)
  {
    var s := Source(Braced(inner)) + rest;
    assert s[2..] == inner + ['}'] + rest;
    Text.IndexOfAt(inner, '}', rest);
    assert s[2..][..|inner|] == inner;
    assert Scan(s) == Braced(inner);
    assert s[|Source(Braced(inner))|..] == rest;
    assert Tokens(s)[1..] == Tokens(rest);
  }

  /**
   A reference between two quoted texts is replaced by its value, untouched, however much the value looks like
   interpolation itself; an error of the reference is the error of the whole.
   */
  lemma ValueInsertedVerbatim(a: string, inner: string, b: string, vars: Vars)
    requires '}' !in inner
    ensures var v := ExpandBraced(inner, vars);
            Expanded(Quoted(a) + (Source(Braced(inner)) + Quoted(b)), vars)
            == if v.Err? then v else Ok(a + (v.value + b))
  {
    QuotedPrefix(a, Source(Braced(inner)) + Quoted(b), vars);
    BracedInFront(inner, Quoted(b), vars);
    QuotingInverts(b, vars);
  }

  /** A name, its characters written out. */
  predicate Named(s: string) {
    && s != "" && (s[0] == '_' || 'a' <= s[0] <= 'z' || 'A' <= s[0] <= 'Z')
    && forall c :: c in s ==> c == '_' || 'a' <= c <= 'z' || 'A' <= c <= 'Z' || '0' <= c <= '9'
  }

  /** The text does not go on with a character of a name. */
  predicate NameEndsBefore(s: string) {
    s == "" || !(s[0] == '_' || 'a' <= s[0] <= 'z' || 'A' <= s[0] <= 'Z' || '0' <= s[0] <= '9')
  }

  /** The table of modifiers, row by row: name, optional ':', modifier, argument. */
  lemma ModifierTable(name: string, colon: bool, op: char, arg: string, vars: Vars)
    requires Named(name) && (op == '-' || op == '?' || op == '+')
    ensures ExpandBraced(name, vars) == Ok(if name in vars then vars[name] else "")
    ensures var r := ExpandBraced(name + ((if colon then [':'] else []) + ([op] + arg)), vars);
            var missing := name !in vars || (colon && vars[name] == "");
            var message := Text.TrimSpace(arg);
            && (op == '-' ==> r == Ok(if missing then arg else vars[name]))
            && (op == '?' ==>
                 r == if !missing then Ok(vars[name])
                      else Err(Required(name, if message == "" then "variable is required" else message)))
            && (op == '+' ==> r == Ok(if missing then "" else arg))
  {
    PlainParses(name);
    ModifiedParses(name, colon, op, arg);
  }

  /** A name with a modifier, as it is written. */
  function Written(name: string, colon: bool, op: char, arg: string): string {
    name + ((if colon then [':'] else []) + ([op] + arg))
  }

  /** The inside of a reference is well-formed: a name, or a name with a modifier and any argument. */
  ghost predicate WellFormed(inner: string) {
    || Named(inner)
    || exists name, colon, op, arg ::
         inner == Written(name, colon, op, arg) && Named(name) && (op == '-' || op == '?' || op == '+')
  }

  lemma ParsedIsWellFormed(inner: string)
    requires !ParseBraced(inner).Malformed?
    ensures WellFormed(inner)
  {
    var n := NameRun(inner);
    var name, rest := inner[..n], inner[n..];
    assert inner == name + rest && n > 0 && name[0] == inner[0];
    if rest == "" {
      assert name == inner;
    } else {
      var colon := rest[0] == ':';
      var tail := if colon then rest[1..] else rest;
      assert rest == (if colon then [':'] else []) + ([tail[0]] + tail[1..]);
      assert inner == Written(name, colon, tail[0], tail[1..]) && Named(name);
    }
  }

  lemma BadReferenceExactly(inner: string, vars: Vars)
    ensures ExpandBraced(inner, vars) == Err(BadReference(inner)) <==> ParseBraced(inner).Malformed?
  {
  }

  /** Exactly the other references are malformed, whatever the variables. */
  lemma MalformedExactly(inner: string, vars: Vars)
    ensures ExpandBraced(inner, vars) == Err(BadReference(inner)) <==> !WellFormed(inner)
  {
    BadReferenceExactly(inner, vars);
    if Named(inner) {
      PlainParses(inner);
    } else if WellFormed(inner) {
      var name, colon, op, arg :| inner == Written(name, colon, op, arg) && Named(name)
                                  && (op == '-' || op == '?' || op == '+');
      ModifiedParses(name, colon, op, arg);
    } else if !ParseBraced(inner).Malformed? {
      ParsedIsWellFormed(inner);
    }
  }

  lemma NamedIsName(name: string)
    ensures Named(name) <==> IsName(name)
  {
    assert name != "" ==> name[0] in name;
  }

  lemma BareInFront(name: string, rest: string, vars: Vars)
    requires Named(name) && NameEndsBefore(rest)
    ensures var value := if name in vars then vars[name] else "";
            Expanded(['$'] + name + rest, vars)
            == if Expanded(rest, vars).Err? then Expanded(rest, vars) else Ok(value + Expanded(rest, vars).value)
  {
    var s := ['$'] + name + rest;
    NameRunOf(name, rest);
    assert s[1..] == name + rest && (name + rest)[..|name|] == name && s[1] == name[0];
    assert Scan(s) == Bare(name);
    assert s[|Source(Bare(name))|..] == rest;
    assert Tokens(s)[1..] == Tokens(rest);
  }

  /**
   A bare reference between a quoted text and anything that does not go on with its name: the value goes in verbatim,
   the empty text for an unset variable, and it makes no difference to write it with braces.
   */
  lemma BareInsertedVerbatim(a: string, name: string, rest: string, vars: Vars)
    requires Named(name) && NameEndsBefore(rest)
    ensures var value := if name in vars then vars[name] else "";
            Expanded(Quoted(a) + (['$'] + name + rest), vars)
            == if Expanded(rest, vars).Err? then Expanded(rest, vars) else Ok(a + (value + Expanded(rest, vars).value))
    ensures Expanded(Quoted(a) + (['$'] + name + rest), vars)
            == Expanded(Quoted(a) + (['$', '{'] + name + ['}'] + rest), vars)
  {
    BareInFront(name, rest, vars);
    QuotedPrefix(a, ['$'] + name + rest, vars);
    ModifierTable(name, false, '-', "", vars);
    assert '}' !in name;
    BracedInFront(name, rest, vars);
    QuotedPrefix(a, ['$', '{'] + name + ['}'] + rest, vars);
  }

  /** A '$' that begins none of the forms stands for itself. */
  lemma LoneDollar(rest: string, vars: Vars)
    requires rest == "" || (rest[0] != '$' && rest[0] != '_' && !('a' <= rest[0] <= 'z') && !('A' <= rest[0] <= 'Z'))
    requires rest != "" && rest[0] == '{' ==> '}' !in rest[1..]
    ensures Expanded(['$'] + rest, vars)
            == if Expanded(rest, vars).Err? then Expanded(rest, vars) else Ok(['$'] + Expanded(rest, vars).value)
  {
    var s := ['$'] + rest;
    assert s[1..] == rest && (|rest| > 0 ==> s[2..] == rest[1..]);
    assert Scan(s) == Literal('$');
    assert Tokens(s)[1..] == Tokens(rest);
  }

  lemma PlainParses(name: string)
    requires Named(name)
    ensures ParseBraced(name) == Plain(name)
  {
    NamedIsName(name);
    assert name + "" == name;
    NameRunOf(name, "");
    assert name[..|name|] == name;
  }

  lemma ModifiedParses(name: string, colon: bool, op: char, arg: string)
    requires Named(name) && IsOp(op)
    ensures ParseBraced(name + ((if colon then [':'] else []) + ([op] + arg))) == Modified(name, colon, op, arg)
  {
    NamedIsName(name);
    var rest := (if colon then [':'] else []) + ([op] + arg);
    var inner := name + rest;
    NameRunOf(name, rest);
    assert inner[..|name|] == name && inner[|name|..] == rest && inner[0] == name[0];
    if colon {
      assert rest[1..] == [op] + arg;
    }
    assert ([op] + arg)[1..] == arg;
  }

  // ---------------------------------------------------------------------------------------------
  // What the result depends on, and when it is an error
  // ---------------------------------------------------------------------------------------------

  function ReferencedBy(t: Token): set<string> {
    match t
    case Bare(name) => {name}
    case Braced(inner) =>
      (match ParseBraced(inner)
       case Malformed => {}
       case Plain(name) => {name}
       case Modified(name, _, _, _) => {name})
    case Escaped => {}
    case Literal(_) => {}
  }

  function References(s: string): set<string> {
    set t, name | t in Tokens(s) && name in ReferencedBy(t) :: name
  }

  ghost predicate AgreeOn(a: Vars, b: Vars, names: set<string>) {
    forall n :: n in names ==> (n in a <==> n in b) && (n in a ==> a[n] == b[n])
  }

  lemma ValueAgrees(t: Token, a: Vars, b: Vars)
    requires AgreeOn(a, b, ReferencedBy(t))
    ensures Value(t, a) == Value(t, b)
  {
    match t
    case Escaped =>
    case Literal(_) =>
    case Bare(name) => assert name in ReferencedBy(t);
    case Braced(inner) =>
      match ParseBraced(inner)
      case Malformed =>
      case Plain(name) => assert name in ReferencedBy(t);
      case Modified(name, _, _, _) => assert name in ReferencedBy(t);
  }

  lemma {:induction false} RenderAgrees(ts: seq<Token>, a: Vars, b: Vars)
    requires forall t :: t in ts ==> AgreeOn(a, b, ReferencedBy(t))
    ensures Render(ts, a) == Render(ts, b)
  {
    if ts != [] {
      assert ts[0] in ts;
      ValueAgrees(ts[0], a, b);
      forall t | t in ts[1..] ensures AgreeOn(a, b, ReferencedBy(t)) {
        assert t in ts;
      }
      RenderAgrees(ts[1..], a, b);
    }
  }

  /** The result depends only on the variables the text references. */
  lemma DependsOnReferencesOnly(s: string, a: Vars, b: Vars)
    requires AgreeOn(a, b, References(s))
    ensures Expanded(s, a) == Expanded(s, b)
  {
    forall t | t in Tokens(s) ensures AgreeOn(a, b, ReferencedBy(t)) {
      forall n | n in ReferencedBy(t) ensures n in References(s) {}
    }
    RenderAgrees(Tokens(s), a, b);
  }

  /** A braced token that is malformed, or requires a variable that is missing. */
  predicate Fails(t: Token, vars: Vars) {
    t.Braced? && match ParseBraced(t.inner)
                 case Malformed => true
                 case Plain(_) => false
                 case Modified(name, colon, op, _) => op == '?' && Missing(vars, name, colon)
  }

  lemma FailsExactly(t: Token, vars: Vars)
    ensures Value(t, vars).Err? <==> Fails(t, vars)
  {
  }

  lemma {:induction false} RenderFailsAt(ts: seq<Token>, vars: Vars)
    ensures Render(ts, vars).Err? <==> exists t :: t in ts && Fails(t, vars)
    ensures Render(ts, vars).Err? ==>
              exists i :: 0 <= i < |ts| && Render(ts, vars) == Value(ts[i], vars) && Fails(ts[i], vars)
                          && forall j :: 0 <= j < i ==> !Fails(ts[j], vars)
  {
    if ts != [] {
      var rest := ts[1..];
      FailsExactly(ts[0], vars);
      RenderFailsAt(rest, vars);
      assert forall t :: t in ts <==> t == ts[0] || t in rest;
      if Fails(ts[0], vars) {
        assert Render(ts, vars) == Value(ts[0], vars);
      } else if Render(rest, vars).Err? {
        var i :| 0 <= i < |rest| && Render(rest, vars) == Value(rest[i], vars) && Fails(rest[i], vars)
                 && forall j :: 0 <= j < i ==> !Fails(rest[j], vars);
        assert Render(ts, vars) == Value(ts[i + 1], vars) && Fails(ts[i + 1], vars);
        forall j | 0 <= j < i + 1 ensures !Fails(ts[j], vars) {
          if j > 0 { assert ts[j] == rest[j - 1]; }
        }
      }
    }
  }

  /** Interpolation fails exactly when some braced token fails, and reports the leftmost such token. */
  lemma ErrorsExactly(s: string, vars: Vars)
    ensures Expanded(s, vars).Err? <==> exists t :: t in Tokens(s) && Fails(t, vars)
    ensures Expanded(s, vars).Err? ==>
              var ts := Tokens(s);
              exists i :: 0 <= i < |ts| && Expanded(s, vars) == Value(ts[i], vars) && Fails(ts[i], vars)
                          && forall j :: 0 <= j < i ==> !Fails(ts[j], vars)
  {
    RenderFailsAt(Tokens(s), vars);
  }
}
