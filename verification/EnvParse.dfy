/**
 Environment values: splitting a string into literal text and `${...}` expressions,
 classifying the expressions, printing a parsed value back, and resolving it.
 */
module EnvParse {
  import opened Types
  import opened Text

  datatype ParseError = Unclosed | EmptySecretName | EmptyServiceName | UnknownInterpolation(expr: string)

  // ----- The parser -----

  predicate OpensAt(s: string, i: nat) {
    i + 1 < |s| && s[i] == '$' && s[i + 1] == '{'
  }

  /** `find("${")` */
  function FindOpen(s: string): (found: Option<nat>)
    ensures found.Some? ==> found.value + 2 <= |s|
  {
    if |s| < 2 then None
    else if OpensAt(s, 0) then Some(0)
    else
      match FindOpen(s[1..])
      case None => None
      case Some(i) => Some(i + 1)
  }

  /** `find('}')` */
  function FindClose(s: string): (found: Option<nat>)
    ensures found.Some? ==> found.value < |s|
  {
    if s == "" then None
    else if s[0] == '}' then Some(0)
    else
      match FindClose(s[1..])
      case None => None
      case Some(i) => Some(i + 1)
  }

  predicate EndsWith(s: string, suffix: string) {
    |suffix| <= |s| && s[|s| - |suffix|..] == suffix
  }

  function Inner(s: string, prefix: string, suffix: string): string
    requires prefix <= s && EndsWith(s[|prefix|..], suffix)
  {
    s[|prefix|..|s| - |suffix|]
  }

  /** The expression inside `${...}`: the part it stands for, and the error it raises if any. */
  function ParseInterpolationExpr(expr: string): (EnvPart, seq<ParseError>) {
    if "secret(" <= expr && EndsWith(expr[7..], ")") then
      var name := Trim(Inner(expr, "secret(", ")"));
      (Secret(name), if name == "" then [EmptySecretName] else [])
    else if "service." <= expr && EndsWith(expr[8..], ".address") then
      var name := Inner(expr, "service.", ".address");
      (ServiceAddress(name), if name == "" then [EmptyServiceName] else [])
    else
      (LiteralPart("${" + expr + "}"), [UnknownInterpolation(expr)])
  }

  /** Classify one value; the errors are those the caller's list grows by. */
  method ParseEnvValue(value: string) returns (result: EnvValue, errors: seq<ParseError>)
    ensures (result, errors) == Parsed(value)
  {
    var parts: seq<EnvPart> := [];
    errors := [];
    var rest := value;
    ghost var done: seq<Segment> := [];
    while true
      invariant Covers(value, done, rest)
      invariant parts == Parts(done) && errors == Errors(done)
      invariant done != [] ==> done[|done| - 1].Expr?
      decreases |rest|
    {
      match FindOpen(rest)
      case None =>
        CoversLast(value, done, rest);
        if rest != "" {
          if parts == [] {
            return Literal(rest), errors;
          }
          parts := parts + [LiteralPart(rest)];
        }
        assert Parsed(value) == (Finish(parts), errors);
        break;
      case Some(start) =>
        ghost var before := done;
        if start > 0 {
          PushSegment(done, Chars(rest[..start]));
          done := done + [Chars(rest[..start])];
          parts := parts + [LiteralPart(rest[..start])];
        }
        assert done == before + Before(rest, start);
        var after := rest[start + 2..];
        match FindClose(after) {
          case None =>
            CoversOpen(value, before, rest, start);
            errors := errors + [Unclosed];
            parts := parts + [LiteralPart(rest[start..])];
            assert Parsed(value) == (Finish(parts), errors);
            break;
          case Some(end) =>
            var (part, raised) := ParseInterpolationExpr(after[..end]);
            CoversNext(value, before, rest, start, end);
            PushSegment(done, Expr(after[..end]));
            done := done + [Expr(after[..end])];
            parts, errors := parts + [part], errors + raised;
            rest := after[end + 1..];
        }
    }
    result := Finish(parts);
  }

  function Finish(parts: seq<EnvPart>): EnvValue {
    if parts == [] then Literal("") else Interpolated(parts)
  }

  /** The string splits into the segments already taken and those of the rest. */
  ghost predicate Covers(value: string, done: seq<Segment>, rest: string) {
    Split(value).0 == done + Split(rest).0 && Split(value).1 == Split(rest).1
  }

  /** The literal before the first `${`, if it is not empty. */
  function Before(s: string, start: nat): seq<Segment>
    requires start <= |s|
  {
    if start > 0 then [Chars(s[..start])] else []
  }

  lemma CoversLast(value: string, done: seq<Segment>, rest: string)
    requires Covers(value, done, rest) && FindOpen(rest).None?
    requires done != [] ==> done[|done| - 1].Expr?
    ensures rest == "" ==> Parsed(value) == (Finish(Parts(done)), Errors(done))
    ensures rest != "" && done == [] ==> Parsed(value) == (Literal(rest), [])
    ensures rest != "" && done != [] ==> Parsed(value) == (Finish(Parts(done) + [LiteralPart(rest)]), Errors(done))
  {
    var last := if rest == "" then [] else [Chars(rest)];
    assert Split(value) == (done + last, "");
    if rest == "" {
      assert done + last == done && Parts(done) + [] == Parts(done);
    } else {
      PushSegment(done, Chars(rest));
      assert Errors(done) + [] == Errors(done);
    }
  }

  lemma CoversOpen(value: string, done: seq<Segment>, rest: string, start: nat)
    requires Covers(value, done, rest)
    requires FindOpen(rest) == Some(start) && FindClose(rest[start + 2..]).None?
    ensures var segments := done + Before(rest, start);
            Parsed(value) == (Interpolated(Parts(segments) + [LiteralPart(rest[start..])]), Errors(segments) + [Unclosed])
  {
    assert Split(value) == (done + Before(rest, start), rest[start..]);
  }

  lemma SplitNext(s: string, start: nat, end: nat)
    requires FindOpen(s) == Some(start) && FindClose(s[start + 2..]) == Some(end)
    ensures var later := Split(s[start + 2..][end + 1..]);
            Split(s) == (Before(s, start) + [Expr(s[start + 2..][..end])] + later.0, later.1)
  {
  }

  lemma CoversNext(value: string, done: seq<Segment>, rest: string, start: nat, end: nat)
    requires Covers(value, done, rest)
    requires FindOpen(rest) == Some(start) && FindClose(rest[start + 2..]) == Some(end)
    ensures Covers(value, done + Before(rest, start) + [Expr(rest[start + 2..][..end])], rest[start + 2..][end + 1..])
  {
    var lit, expr, rest' := Before(rest, start), [Expr(rest[start + 2..][..end])], rest[start + 2..][end + 1..];
    var later := Split(rest').0;
    SplitNext(rest, start, end);
    calc {
      Split(value).0;
      done + Split(rest).0;
      done + (lit + expr + later);
      { Regroup(done, lit, expr, later); }
      done + lit + expr + later;
    }
  }

  lemma Regroup(a: seq<Segment>, b: seq<Segment>, c: seq<Segment>, d: seq<Segment>)
    ensures a + (b + c + d) == a + b + c + d
  {
  }

  // ----- What it computes -----

  /** Literal characters or the text of one `${...}`. */
  datatype Segment = Chars(text: string) | Expr(expr: string)

  /** The closed segments of a string, and what follows a `${` that is never closed. */
  function Split(s: string): (seq<Segment>, string) {
    match FindOpen(s)
    case None => (if s == "" then [] else [Chars(s)], "")
    case Some(start) =>
      var after := s[start + 2..];
      match FindClose(after)
      case None => (Before(s, start), s[start..])
      case Some(end) =>
        var (segments, open) := Split(after[end + 1..]);
        (Before(s, start) + [Expr(after[..end])] + segments, open)
  }

  function PartOf(s: Segment): EnvPart {
    if s.Chars? then LiteralPart(s.text) else ParseInterpolationExpr(s.expr).0
  }

  function ErrorsOf(s: Segment): seq<ParseError> {
    if s.Chars? then [] else ParseInterpolationExpr(s.expr).1
  }

  function Parts(segments: seq<Segment>): (parts: seq<EnvPart>)
    ensures |parts| == |segments|
  {
    if segments == [] then []
    else Parts(segments[..|segments| - 1]) + [PartOf(segments[|segments| - 1])]
  }

  function Errors(segments: seq<Segment>): seq<ParseError> {
    if segments == [] then []
    else Errors(segments[..|segments| - 1]) + ErrorsOf(segments[|segments| - 1])
  }

  function Classify(segments: seq<Segment>, open: string): (EnvValue, seq<ParseError>) {
    if open != "" then
      (Interpolated(Parts(segments) + [LiteralPart(open)]), Errors(segments) + [Unclosed])
    else if segments == [] then (Literal(""), [])
    else if |segments| == 1 && segments[0].Chars? then (Literal(segments[0].text), [])
    else (Interpolated(Parts(segments)), Errors(segments))
  }

  function Parsed(value: string): (EnvValue, seq<ParseError>) {
    Classify(Split(value).0, Split(value).1)
  }

  lemma PushSegment(segments: seq<Segment>, s: Segment)
    ensures Parts(segments + [s]) == Parts(segments) + [PartOf(s)]
    ensures Errors(segments + [s]) == Errors(segments) + ErrorsOf(s)
    ensures s.Chars? ==> Errors(segments + [s]) == Errors(segments)
  {
    assert (segments + [s])[..|segments|] == segments;
    assert Errors(segments) + [] == Errors(segments);
  }

  // ----- Decomposition -----

  function SegmentText(s: Segment): string {
    if s.Chars? then s.text else "${" + s.expr + "}"
  }

  /** The string made of the segments. */
  function Source(segments: seq<Segment>): string {
    if segments == [] then "" else SegmentText(segments[0]) + Source(segments[1..])
  }

  ghost predicate NoOpen(s: string) {
    forall i: nat :: !OpensAt(s, i)
  }

  ghost predicate WellFormedSegment(s: Segment) {
    if s.Chars? then s.text != "" && NoOpen(s.text) else '}' !in s.expr
  }

  /** Literals are not empty, not adjacent and open nothing; expressions close nothing early. */
  ghost predicate WellFormed(segments: seq<Segment>) {
    && (forall s | s in segments :: WellFormedSegment(s))
    && (forall i | 0 < i < |segments| :: segments[i - 1].Expr? || segments[i].Expr?)
  }

  lemma {:induction false} FindOpenIsFirst(s: string)
    ensures FindOpen(s).None? ==> NoOpen(s)
    ensures FindOpen(s).Some? ==> OpensAt(s, FindOpen(s).value) && NoOpen(s[..FindOpen(s).value])
  {
    if |s| >= 2 && !OpensAt(s, 0) {
      FindOpenIsFirst(s[1..]);
      assert forall i: nat | i > 0 && OpensAt(s, i) :: OpensAt(s[1..], i - 1);
      if FindOpen(s).Some? {
        var n := FindOpen(s).value;
        assert s[..n][1..] == s[1..][..n - 1];
        assert forall i: nat | OpensAt(s[..n], i) :: OpensAt(s, i) && (i > 0 ==> OpensAt(s[..n][1..], i - 1));
      }
    }
  }

  lemma {:induction false} FindCloseIsFirst(s: string)
    ensures FindClose(s).None? ==> '}' !in s
    ensures FindClose(s).Some? ==> s[FindClose(s).value] == '}' && '}' !in s[..FindClose(s).value]
  {
    if s != "" && s[0] != '}' {
      FindCloseIsFirst(s[1..]);
      assert s == [s[0]] + s[1..];
      if FindClose(s).Some? {
        var n := FindClose(s).value;
        assert s[..n] == [s[0]] + s[1..][..n - 1];
      }
    }
  }

  /** The first `${` after text without one, even if that text ends in a dollar sign. */
  lemma {:induction false} FindOpenAfter(t: string, x: string)
    requires NoOpen(t) && OpensAt(x, 0)
    ensures FindOpen(t + x) == Some(|t|)
  {
    if t == "" {
      assert t + x == x;
    } else {
      assert !OpensAt(t + x, 0) by {
        if OpensAt(t + x, 0) {
          assert |t| > 1 ==> OpensAt(t, 0);
        }
      }
      assert (t + x)[1..] == t[1..] + x;
      assert forall i: nat | OpensAt(t[1..], i) :: OpensAt(t, i + 1);
      FindOpenAfter(t[1..], x);
    }
  }

  lemma {:induction false} FindOpenNone(t: string)
    requires NoOpen(t)
    ensures FindOpen(t).None?
  {
    if |t| >= 2 {
      assert !OpensAt(t, 0);
      assert forall i: nat | OpensAt(t[1..], i) :: OpensAt(t, i + 1);
      FindOpenNone(t[1..]);
    }
  }

  lemma {:induction false} FindCloseAfter(e: string, x: string)
    requires '}' !in e
    ensures FindClose(e + "}" + x) == Some(|e|)
  {
    if e == "" {
      assert e + "}" + x == "}" + x;
    } else {
      assert (e + "}" + x)[1..] == e[1..] + "}" + x;
      FindCloseAfter(e[1..], x);
    }
  }

  lemma {:induction false} SourceConcat(a: seq<Segment>, b: seq<Segment>)
    ensures Source(a + b) == Source(a) + Source(b)
  {
    if a == [] {
      assert a + b == b;
    } else {
      assert (a + b)[1..] == a[1..] + b;
      SourceConcat(a[1..], b);
    }
  }

  lemma BeforeIs(s: string, start: nat)
    requires start <= |s| && NoOpen(s[..start])
    ensures WellFormed(Before(s, start)) && Source(Before(s, start)) == s[..start]
  {
    if start > 0 { SourceOne(Chars(s[..start])); }
  }

  /** One closed expression: the source of what is split off is what was split off. */
  lemma SourceNext(s: string, start: nat, end: nat, later: seq<Segment>)
    requires FindOpen(s) == Some(start) && FindClose(s[start + 2..]) == Some(end) && WellFormed(later)
    ensures var segments := Before(s, start) + [Expr(s[start + 2..][..end])] + later;
            WellFormed(segments) && Source(segments) == s[..start + end + 3] + Source(later)
  {
    var lit, expr := Before(s, start), Expr(s[start + 2..][..end]);
    FindOpenIsFirst(s);
    FindCloseIsFirst(s[start + 2..]);
    BeforeIs(s, start);
    SourceOne(expr);
    SourceConcat(lit, [expr]);
    SourceConcat(lit + [expr], later);
    JoinWellFormed(lit, expr, later);
    Stitch(s, start, end);
  }

  lemma Stitch(s: string, start: nat, end: nat)
    requires OpensAt(s, start) && start + 2 + end < |s| && s[start + 2 + end] == '}'
    ensures s[..start + end + 3] == s[..start] + ("${" + s[start + 2..][..end] + "}")
  {
    var n := start + 2 + end;
    assert s[..n + 1] == s[..n] + [s[n]];
    assert s[..n] == s[..start + 2] + s[start + 2..][..end];
    assert s[..start + 2] == s[..start] + [s[start], s[start + 1]];
    assert "${" == ['$', '{'] && "}" == ['}'];
    Assoc(s[..start], "${", s[start + 2..][..end], "}");
  }

  lemma Assoc(a: string, b: string, c: string, d: string)
    ensures a + b + c + d == a + (b + c + d)
  {
  }

  lemma PutBack(s: string, n: nat, rest: string, source: string, open: string)
    requires n <= |s| && s[n..] == rest && source + open == rest
    ensures s[..n] + source + open == s
  {
    assert s[..n] + source + open == s[..n] + (source + open);
  }

  /** Splitting loses nothing: the segments and the open rest make up the string again. */
  lemma {:induction false} SplitCovers(s: string)
    ensures WellFormed(Split(s).0) && Source(Split(s).0) + Split(s).1 == s
    ensures Split(s).1 != "" ==> OpensAt(Split(s).1, 0) && '}' !in Split(s).1
    decreases |s|
  {
    if FindOpen(s).None? {
      if s != "" { SourceOne(Chars(s)); }
      FindOpenIsFirst(s);
      assert s + "" == s;
    } else {
      var start := FindOpen(s).value;
      var after := s[start + 2..];
      if FindClose(after).None? {
        OpenCovers(s, start);
      } else {
        var end := FindClose(after).value;
        SplitCovers(after[end + 1..]);
        var (later, open) := Split(after[end + 1..]);
        DropTwice(s, start + 2, end + 1);
        ClosedCovers(s, start, end, later, open);
        SplitNext(s, start, end);
      }
    }
  }

  lemma OpenCovers(s: string, start: nat)
    requires FindOpen(s) == Some(start) && FindClose(s[start + 2..]).None?
    ensures WellFormed(Before(s, start)) && Source(Before(s, start)) + s[start..] == s
    ensures OpensAt(s[start..], 0) && '}' !in s[start..]
  {
    FindOpenIsFirst(s);
    FindCloseIsFirst(s[start + 2..]);
    BeforeIs(s, start);
    assert s[start..] == "${" + s[start + 2..] && s == s[..start] + s[start..];
  }

  lemma ClosedCovers(s: string, start: nat, end: nat, later: seq<Segment>, open: string)
    requires FindOpen(s) == Some(start) && FindClose(s[start + 2..]) == Some(end)
    requires start + end + 3 <= |s| && WellFormed(later) && Source(later) + open == s[start + end + 3..]
    ensures var segments := Before(s, start) + [Expr(s[start + 2..][..end])] + later;
            WellFormed(segments) && Source(segments) + open == s
  {
    SourceNext(s, start, end, later);
    PutBack(s, start + end + 3, s[start + end + 3..], Source(later), open);
  }

  lemma DropTwice(s: string, a: nat, b: nat)
    requires a + b <= |s|
    ensures s[a..][b..] == s[a + b..]
  {
  }

  lemma SourceOne(s: Segment)
    ensures Source([s]) == SegmentText(s)
  {
    assert Source([s][1..]) == "";
    assert SegmentText(s) + "" == SegmentText(s);
  }

  lemma JoinWellFormed(lit: seq<Segment>, expr: Segment, later: seq<Segment>)
    requires |lit| <= 1 && WellFormed(lit) && expr.Expr? && WellFormedSegment(expr) && WellFormed(later)
    ensures WellFormed(lit + [expr] + later)
  {
    var all := lit + [expr] + later;
    forall i | 0 < i < |all| ensures all[i - 1].Expr? || all[i].Expr? {
      if i > |lit| + 1 {
        assert all[i - 1] == later[i - 1 - |lit| - 1] && all[i] == later[i - |lit| - 1];
      }
    }
  }

  /** A string has at most one well-formed decomposition, and splitting finds it. */
  lemma {:induction false} SplitInverts(segments: seq<Segment>)
    requires WellFormed(segments)
    ensures Split(Source(segments)) == (segments, "")
    decreases |segments|, 0
  {
    if segments != [] {
      assert WellFormedSegment(segments[0]);
      if segments[0].Expr? {
        SplitAt("", segments[0].expr, segments[1..]);
        assert Source(segments) == "" + ("${" + segments[0].expr + "}" + Source(segments[1..]));
        assert segments == [] + [segments[0]] + segments[1..];
      } else if |segments| == 1 {
        SourceOne(segments[0]);
        FindOpenNone(segments[0].text);
        assert segments == [segments[0]];
      } else {
        var t, e, rest := segments[0].text, segments[1], segments[2..];
        assert WellFormedSegment(e) && e.Expr?;
        assert segments[1..][1..] == rest && segments[1..][0] == e;
        SplitAt(t, e.expr, rest);
        assert Source(segments) == t + ("${" + e.expr + "}" + Source(rest));
        assert segments == [Chars(t)] + [e] + rest;
      }
    }
  }

  lemma SplitAt(t: string, e: string, rest: seq<Segment>)
    requires NoOpen(t) && '}' !in e && WellFormed(rest)
    ensures var s := t + ("${" + e + "}" + Source(rest));
            Split(s) == ((if t == "" then [] else [Chars(t)]) + [Expr(e)] + rest, "")
    decreases |rest|, 1
  {
    var s := t + ("${" + e + "}" + Source(rest));
    OpensAndCloses(t, e, Source(rest));
    SplitInverts(rest);
    SplitNext(s, |t|, |e|);
  }

  /** Where the first expression of a text is found, and what is around it. */
  lemma OpensAndCloses(t: string, e: string, source: string)
    requires NoOpen(t) && '}' !in e
    ensures var s := t + ("${" + e + "}" + source);
            && FindOpen(s) == Some(|t|) && FindClose(s[|t| + 2..]) == Some(|e|)
            && s[|t| + 2..][..|e|] == e && s[|t| + 2..][|e| + 1..] == source && s[..|t|] == t
  {
    var x := "${" + e + "}" + source;
    FindOpenAfter(t, x);
    var after := (t + x)[|t| + 2..];
    assert after == e + "}" + source;
    FindCloseAfter(e, source);
    assert after[..|e|] == e && after[|e| + 1..] == source;
  }

  // ----- What an expression denotes -----

  datatype Reference = ToSecret(name: string) | ToService(name: string)

  /** The grammar of expressions: `secret(NAME)` with spaces around the name, `service.NAME.address`. */
  ghost predicate Denotes(expr: string, ref: Reference) {
    match ref
    case ToSecret(name) => name != "" && exists inner :: expr == "secret(" + inner + ")" && Trim(inner) == name
    case ToService(name) => name != "" && expr == "service." + name + ".address"
  }

  function ReferencePart(ref: Reference): EnvPart {
    match ref
    case ToSecret(name) => Secret(name)
    case ToService(name) => ServiceAddress(name)
  }

  lemma SecretShape(expr: string, inner: string)
    ensures expr == "secret(" + inner + ")" <==>
            && "secret(" <= expr && EndsWith(expr[7..], ")")
            && Inner(expr, "secret(", ")") == inner
  {
    if "secret(" <= expr && EndsWith(expr[7..], ")") {
      assert expr == expr[..7] + expr[7..|expr| - 1] + expr[|expr| - 1..];
      assert expr[7..][|expr| - 8..] == expr[|expr| - 1..];
    }
    if expr == "secret(" + inner + ")" {
      assert expr[..7] == "secret(" && expr[7..] == inner + ")";
      assert expr[7..][|inner|..] == ")";
    }
  }

  lemma ServiceShape(expr: string, name: string)
    ensures expr == "service." + name + ".address" <==>
            && "service." <= expr && EndsWith(expr[8..], ".address")
            && Inner(expr, "service.", ".address") == name
  {
    if "service." <= expr && EndsWith(expr[8..], ".address") {
      assert expr == expr[..8] + expr[8..|expr| - 8] + expr[|expr| - 8..];
      assert expr[8..][|expr| - 16..] == expr[|expr| - 8..];
    }
    if expr == "service." + name + ".address" {
      assert expr[..8] == "service." && expr[8..] == name + ".address";
      assert expr[8..][|name|..] == ".address";
    }
  }

  lemma PrefixesDiffer(expr: string)
    ensures !("secret(" <= expr && "service." <= expr)
  {
    var p, q := "secret(", "service.";
    assert p[2] != q[2];
  }

  /** An expression parses to a reference without an error exactly if it denotes that reference. */
  lemma ParsesToReference(expr: string, ref: Reference)
    ensures Denotes(expr, ref) <==> ParseInterpolationExpr(expr) == (ReferencePart(ref), [])
  {
    PrefixesDiffer(expr);
    if ref.ToSecret? {
      if Denotes(expr, ref) {
        var inner :| expr == "secret(" + inner + ")" && Trim(inner) == ref.name;
        SecretShape(expr, inner);
      }
      if "secret(" <= expr && EndsWith(expr[7..], ")") {
        SecretShape(expr, Inner(expr, "secret(", ")"));
      }
    } else {
      ServiceShape(expr, ref.name);
    }
  }

  lemma ParsesCleanlyIff(expr: string)
    ensures ParseInterpolationExpr(expr).1 == [] <==> exists ref :: Denotes(expr, ref)
  {
    var (part, errors) := ParseInterpolationExpr(expr);
    if errors == [] {
      var ref := if part.Secret? then ToSecret(part.name) else ToService(part.service);
      ParsesToReference(expr, ref);
    }
    if exists ref :: Denotes(expr, ref) {
      var ref :| Denotes(expr, ref);
      ParsesToReference(expr, ref);
    }
  }

  // ----- Resolving -----

  /** What references stand for at deploy time; absent if the address or secret is not available. */
  datatype Environment = Environment(address: string -> Option<string>, secret: string -> Option<string>)

  function PartValue(part: EnvPart, env: Environment): Option<string> {
    match part
    case LiteralPart(text) => Some(text)
    case ServiceAddress(service) => env.address(service)
    case Secret(name) => env.secret(name)
  }

  function Join(a: Option<string>, b: Option<string>): Option<string> {
    if a.Some? && b.Some? then Some(a.value + b.value) else None
  }

  function PartsValue(parts: seq<EnvPart>, env: Environment): Option<string> {
    if parts == [] then Some("")
    else Join(PartsValue(parts[..|parts| - 1], env), PartValue(parts[|parts| - 1], env))
  }

  function Value(value: EnvValue, env: Environment): Option<string> {
    match value
    case Literal(text) => Some(text)
    case Interpolated(parts) => PartsValue(parts, env)
  }

  /** The first part that has no value. */
  ghost predicate IsFirstUnresolvable(parts: seq<EnvPart>, env: Environment, part: EnvPart) {
    exists i | 0 <= i < |parts| ::
      part == parts[i] && PartValue(part, env).None? && forall j | 0 <= j < i :: PartValue(parts[j], env).Some?
  }

  /** Resolve a parsed value; the first unresolvable part is returned as the error. */
  method ResolveEnvValue(value: EnvValue, env: Environment) returns (result: Result<string, EnvPart>)
    ensures result.Ok? <==> Value(value, env).Some?
    ensures result.Ok? ==> Value(value, env) == Some(result.value)
    ensures result.Err? ==> value.Interpolated? && IsFirstUnresolvable(value.parts, env, result.error)
  {
    match value
    case Literal(text) =>
      result := Ok(text);
    case Interpolated(parts) =>
      var text := "";
      for i := 0 to |parts|
        invariant PartsValue(parts[..i], env) == Some(text) && forall j | 0 <= j < i :: PartValue(parts[j], env).Some?
      {
        assert parts[..i + 1][..i] == parts[..i];
        match PartValue(parts[i], env) {
          case None =>
            UnresolvableStays(parts, i, env);
            return Err(parts[i]);
          case Some(v) =>
            text := text + v;
        }
      }
      assert parts[..|parts|] == parts;
      result := Ok(text);
  }

  lemma {:induction false} UnresolvableStays(parts: seq<EnvPart>, i: nat, env: Environment)
    requires i < |parts| && PartValue(parts[i], env).None?
    ensures PartsValue(parts, env).None?
    decreases |parts|
  {
    if i < |parts| - 1 {
      UnresolvableStays(parts[..|parts| - 1], i, env);
    }
  }

  /** The value an expression denotes, by the grammar. */
  ghost function ExpressionValue(expr: string, env: Environment): Option<string> {
    if exists ref :: Denotes(expr, ref) then
      var ref :| Denotes(expr, ref);
      PartValue(ReferencePart(ref), env)
    else None
  }

  /** The text with every `${...}` replaced by what its expression denotes. */
  ghost function Substituted(segments: seq<Segment>, env: Environment): Option<string> {
    if segments == [] then Some("")
    else
      var last := segments[|segments| - 1];
      Join(Substituted(segments[..|segments| - 1], env),
           if last.Chars? then Some(last.text) else ExpressionValue(last.expr, env))
  }

  lemma {:induction false} PartsAreSubstituted(segments: seq<Segment>, env: Environment)
    requires Errors(segments) == []
    ensures PartsValue(Parts(segments), env) == Substituted(segments, env)
  {
    if segments != [] {
      var n := |segments| - 1;
      PartsAreSubstituted(segments[..n], env);
      var last := segments[n];
      assert Parts(segments)[..n] == Parts(segments[..n]) && Parts(segments)[n] == PartOf(last);
      if last.Expr? {
        ExpressionIsItsPart(last.expr, env);
      }
    }
  }

  lemma ExpressionIsItsPart(expr: string, env: Environment)
    requires ParseInterpolationExpr(expr).1 == []
    ensures ExpressionValue(expr, env) == PartValue(ParseInterpolationExpr(expr).0, env)
  {
    ParsesCleanlyIff(expr);
    var ref :| Denotes(expr, ref) && ExpressionValue(expr, env) == PartValue(ReferencePart(ref), env);
    ParsesToReference(expr, ref);
  }

  /**
   Parsing preserves meaning: a string that parses without errors is the source of its
   well-formed segments, and resolving the parsed value gives the string with each
   expression replaced by what it denotes, in every environment.
   */
  lemma ParsingPreservesMeaning(value: string, env: Environment)
    requires Parsed(value).1 == []
    ensures WellFormed(Split(value).0) && Source(Split(value).0) == value
    ensures Value(Parsed(value).0, env) == Substituted(Split(value).0, env)
  {
    SplitCovers(value);
    var segments := Split(value).0;
    assert Source(segments) + "" == Source(segments);
    if |segments| == 1 && segments[0].Chars? {
      assert Substituted(segments[..0], env) == Some("") && "" + segments[0].text == segments[0].text;
    } else if segments != [] {
      PartsAreSubstituted(segments, env);
    }
  }

  /**
   Exactly the strings that parse without errors: those with a well-formed decomposition
   whose expressions all denote something.
   */
  lemma ParsesWithoutErrorsIff(value: string)
    ensures Parsed(value).1 == [] <==>
            exists segments :: WellFormed(segments) && Source(segments) == value && AllDenote(segments)
  {
    SplitCovers(value);
    ErrorsEmptyIff(Split(value).0);
    if Parsed(value).1 == [] {
      assert Source(Split(value).0) + "" == Source(Split(value).0);
    }
    if exists segments :: WellFormed(segments) && Source(segments) == value && AllDenote(segments) {
      var segments :| WellFormed(segments) && Source(segments) == value && AllDenote(segments);
      SplitInverts(segments);
    }
  }

  ghost predicate AllDenote(segments: seq<Segment>) {
    forall s | s in segments :: s.Expr? ==> exists ref :: Denotes(s.expr, ref)
  }

  lemma {:induction false} ErrorsEmptyIff(segments: seq<Segment>)
    ensures Errors(segments) == [] <==> AllDenote(segments)
  {
    if segments != [] {
      var n := |segments| - 1;
      assert segments == segments[..n] + [segments[n]];
      ErrorsEmptyIff(segments[..n]);
      if segments[n].Expr? { ParsesCleanlyIff(segments[n].expr); }
    }
  }

  /** What is wrong with an expression that denotes nothing. */
  ghost predicate Raises(expr: string, e: ParseError) {
    match e
    case EmptySecretName => exists inner :: expr == "secret(" + inner + ")" && Trim(inner) == ""
    case EmptyServiceName => expr == "service." + "" + ".address"
    case UnknownInterpolation(text) =>
      && text == expr
      && (forall inner :: expr != "secret(" + inner + ")")
      && (forall name :: expr != "service." + name + ".address")
    case Unclosed => false
  }

  lemma RaisesIff(expr: string, e: ParseError)
    ensures Raises(expr, e) <==> ParseInterpolationExpr(expr).1 == [e]
  {
    PrefixesDiffer(expr);
    if "secret(" <= expr && EndsWith(expr[7..], ")") {
      SecretShape(expr, Inner(expr, "secret(", ")"));
      NotAService(expr);
    } else {
      forall inner ensures expr != "secret(" + inner + ")" {
        SecretShape(expr, inner);
      }
      forall name ensures expr == "service." + name + ".address" <==>
                          && "service." <= expr && EndsWith(expr[8..], ".address")
                          && Inner(expr, "service.", ".address") == name {
        ServiceShape(expr, name);
      }
      if "service." <= expr && EndsWith(expr[8..], ".address") {
        ServiceShape(expr, Inner(expr, "service.", ".address"));
      }
    }
  }

  /** An unknown expression is kept as it is written. */
  lemma UnknownIsKept(expr: string)
    requires Raises(expr, UnknownInterpolation(expr))
    ensures PartOf(Expr(expr)) == LiteralPart(SegmentText(Expr(expr)))
  {
    RaisesIff(expr, UnknownInterpolation(expr));
  }

  lemma NotAService(expr: string)
    requires "secret(" <= expr
    ensures forall name :: expr != "service." + name + ".address"
  {
    forall name ensures expr != "service." + name + ".address" {
      ServiceShape(expr, name);
      PrefixesDiffer(expr);
    }
  }

  /** One error for each expression that denotes nothing, in their order. */
  ghost predicate AreErrors(segments: seq<Segment>, errors: seq<ParseError>) {
    if segments == [] then errors == []
    else
      var n, last := |segments| - 1, segments[|segments| - 1];
      if last.Chars? || (exists ref :: Denotes(last.expr, ref)) then AreErrors(segments[..n], errors)
      else errors != [] && Raises(last.expr, errors[|errors| - 1]) && AreErrors(segments[..n], errors[..|errors| - 1])
  }

  lemma {:induction false} ErrorsAreErrors(segments: seq<Segment>)
    ensures AreErrors(segments, Errors(segments))
  {
    if segments != [] {
      var n, last := |segments| - 1, segments[|segments| - 1];
      ErrorsAreErrors(segments[..n]);
      var before, more := Errors(segments[..n]), ErrorsOf(last);
      if last.Chars? {
        assert before + [] == before;
      } else {
        ParsesCleanlyIff(last.expr);
        if more == [] {
          assert before + [] == before;
        } else {
          RaisesIff(last.expr, more[0]);
          assert more == [more[0]] && (before + more)[..|before + more| - 1] == before;
        }
      }
    }
  }

  /**
   Which errors a value gives: those of its expressions in order, and last that a `${` is not closed;
   what follows that is kept as it is.
   */
  lemma ParseErrorsAre(value: string)
    ensures var (segments, open) := Split(value);
            && WellFormed(segments) && Source(segments) + open == value
            && if open == "" then AreErrors(segments, Parsed(value).1)
               else
                 && OpensAt(open, 0) && '}' !in open
                 && (exists errors :: AreErrors(segments, errors) && Parsed(value).1 == errors + [Unclosed])
                 && Parsed(value).0 == Interpolated(Parts(segments) + [LiteralPart(open)])
  {
    SplitCovers(value);
    ErrorsAreErrors(Split(value).0);
  }

  // ----- Printing and parsing back -----

  /** How a part is written. */
  function SegmentOf(part: EnvPart): Segment {
    match part
    case LiteralPart(text) => Chars(text)
    case Secret(name) => Expr("secret(" + name + ")")
    case ServiceAddress(service) => Expr("service." + service + ".address")
  }

  function SegmentsOf(parts: seq<EnvPart>): (segments: seq<Segment>)
    ensures |segments| == |parts|
    ensures forall i | 0 <= i < |parts| :: segments[i] == SegmentOf(parts[i])
  {
    if parts == [] then []
    else SegmentsOf(parts[..|parts| - 1]) + [SegmentOf(parts[|parts| - 1])]
  }

  function Print(value: EnvValue): string {
    match value
    case Literal(text) => text
    case Interpolated(parts) => Source(SegmentsOf(parts))
  }

  ghost predicate CanonicalPart(part: EnvPart) {
    match part
    case LiteralPart(text) => text != "" && NoOpen(text)
    case Secret(name) => name != "" && IsTrimmed(name) && '}' !in name
    case ServiceAddress(service) => service != "" && '}' !in service
  }

  /** The values parsing can produce: trimmed names, literals that open nothing and are not adjacent. */
  ghost predicate Canonical(value: EnvValue) {
    match value
    case Literal(text) => NoOpen(text)
    case Interpolated(parts) =>
      && parts != [] && !(|parts| == 1 && parts[0].LiteralPart?)
      && (forall p | p in parts :: CanonicalPart(p))
      && (forall i | 0 < i < |parts| :: !(parts[i - 1].LiteralPart? && parts[i].LiteralPart?))
  }

  lemma PrintedExpr(prefix: string, name: string, suffix: string)
    requires '}' !in prefix && '}' !in name && '}' !in suffix
    ensures '}' !in prefix + name + suffix
  {
  }

  lemma PrintedPart(part: EnvPart)
    requires CanonicalPart(part)
    ensures WellFormedSegment(SegmentOf(part))
    ensures PartOf(SegmentOf(part)) == part && ErrorsOf(SegmentOf(part)) == []
  {
    match part
    case LiteralPart(_) =>
    case Secret(name) =>
      PrintedExpr("secret(", name, ")");
      assert Trim(name) == name;
      assert Denotes("secret(" + name + ")", ToSecret(name));
      ParsesToReference("secret(" + name + ")", ToSecret(name));
    case ServiceAddress(name) =>
      PrintedExpr("service.", name, ".address");
      ParsesToReference("service." + name + ".address", ToService(name));
  }

  lemma {:induction false} PrintedParts(parts: seq<EnvPart>)
    requires forall p | p in parts :: CanonicalPart(p)
    ensures Parts(SegmentsOf(parts)) == parts && Errors(SegmentsOf(parts)) == []
  {
    if parts != [] {
      var n := |parts| - 1;
      var before, last := parts[..n], parts[n];
      assert parts == before + [last] && last in parts;
      PrintedParts(before);
      PrintedPart(last);
      PushSegment(SegmentsOf(before), SegmentOf(last));
      assert [] + ErrorsOf(SegmentOf(last)) == [];
    }
  }

  /** Printing any canonical value and parsing it gives the value back, without errors. */
  lemma PrintParsesBack(value: EnvValue)
    requires Canonical(value)
    ensures Parsed(Print(value)) == (value, [])
  {
    match value
    case Literal(text) =>
      FindOpenNone(text);
    case Interpolated(parts) =>
      var segments := SegmentsOf(parts);
      forall s | s in segments ensures WellFormedSegment(s) {
        var i :| 0 <= i < |segments| && segments[i] == s;
        PrintedPart(parts[i]);
      }
      forall i | 0 < i < |segments| ensures segments[i - 1].Expr? || segments[i].Expr? {
        assert segments[i - 1] == SegmentOf(parts[i - 1]) && segments[i] == SegmentOf(parts[i]);
      }
      SplitInverts(segments);
      PrintedParts(parts);
  }

  lemma ReferenceIsCanonical(part: EnvPart, expr: string)
    requires '}' !in expr && ParseInterpolationExpr(expr) == (part, [])
    ensures CanonicalPart(part) && !part.LiteralPart?
  {
    if part.Secret? {
      TrimAddsNothing(Inner(expr, "secret(", ")"));
    }
  }

  lemma {:induction false} PartsAt(segments: seq<Segment>, i: nat)
    requires i < |segments|
    ensures Parts(segments)[i] == PartOf(segments[i])
    ensures Errors(segments) == [] ==> ErrorsOf(segments[i]) == []
    decreases |segments|
  {
    if i < |segments| - 1 {
      PartsAt(segments[..|segments| - 1], i);
    }
  }

  /** And every value parsed without errors is canonical. */
  lemma ParsesToCanonical(value: string)
    requires Parsed(value).1 == []
    ensures Canonical(Parsed(value).0)
  {
    SplitCovers(value);
    var segments := Split(value).0;
    assert |segments| == 1 ==> WellFormedSegment(segments[0]);
    forall i | 0 <= i < |segments|
      ensures segments[i].Chars? <==> Parts(segments)[i].LiteralPart?
      ensures segments != [] && !(|segments| == 1 && segments[0].Chars?) ==> CanonicalPart(Parts(segments)[i])
    {
      PartsAt(segments, i);
      ErrorsEmptyIff(segments);
      assert WellFormedSegment(segments[i]);
      if segments[i].Expr? && ErrorsOf(segments[i]) == [] {
        ReferenceIsCanonical(PartOf(segments[i]), segments[i].expr);
      }
    }
  }
}
