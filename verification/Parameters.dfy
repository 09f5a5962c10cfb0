/** The variable scanner of templates: ${NAME} is replaced, $${NAME} loses one dollar, ${{NAME}} is decoded. */
module Parameters {
  import opened Objects

  // Decoded: the text that is read as YAML. Reading it is not part of this model.
  datatype Parsed = Text(text: string) | Decoded(yaml: string) | Failed

  // None is an error.
  type Replace = string -> Option<string>

  // ----- the two patterns -----

  function LeadingDollars(s: string): (n: nat)
    ensures n <= |s| && (forall i | 0 <= i < n :: s[i] == '$') && (n < |s| ==> s[n] != '$')
  {
    if s != "" && s[0] == '$' then 1 + LeadingDollars(s[1..]) else 0
  }

  // Where the first closing brace is, or the length.
  function FirstClose(s: string): (n: nat)
    ensures n <= |s| && (forall i | 0 <= i < n :: s[i] != '}') && (n < |s| ==> s[n] == '}')
  {
    if s != "" && s[0] != '}' then 1 + FirstClose(s[1..]) else 0
  }

  // The length of the variable that starts here, 0 if there is none: dollars, a brace, a name, a brace.
  function VarLength(s: string): (n: nat)
    ensures n <= |s|
    ensures n > 0 ==> n >= LeadingDollars(s) + 3 && s[0] == '$' && s[LeadingDollars(s)] == '{' && s[n - 1] == '}'
  {
    var d := LeadingDollars(s);
    if d == 0 || d == |s| || s[d] != '{' then 0
    else
      var name := FirstClose(s[d + 1..]);
      if name == 0 || d + 1 + name == |s| then 0 else d + name + 2
  }

  predicate IsExpression(s: string) {
    |s| > 5 && s[..3] == "${{" && FirstClose(s[3..]) == |s| - 5 && s[|s| - 2..] == "}}"
  }

  /** Only a string that is one doubly braced name from end to end is an expression. */
  lemma ExpressionExactly(s: string)
    ensures IsExpression(s) <==> exists name: string :: name != "" && '}' !in name && s == "${{" + name + "}}"
  {
    if IsExpression(s) {
      var name := s[3..|s| - 2];
      assert forall i | 0 <= i < |name| :: name[i] == s[3..][i];
      assert s == s[..3] + name + s[|s| - 2..];
    }
    if name: string :| name != "" && '}' !in name && s == "${{" + name + "}}" {
      assert s[3..] == name + "}}";
      assert forall i | 0 <= i < |name| :: s[3..][i] == name[i] && name[i] in name;
      assert s[3..][|name|] == '}';
      assert s[|s| - 2..] == "}}" && s[..3] == "${{";
    }
  }

  // ----- what parsing means, reading from left to right -----

  // How far a pattern matches at the start of a string; 0 when it does not.
  ghost predicate IsPattern(length: string -> nat) {
    forall s :: length(s) <= |s|
  }

  type Pattern = length: string -> nat | IsPattern(length) witness (s: string) => 0

  const VARIABLE: Pattern := (s: string) => VarLength(s)

  function Prepend(text: string, rest: Option<string>): Option<string> {
    match rest case None => None case Some(r) => Some(text + r)
  }

  // Every leftmost match is replaced by its value; a match without a value is an error.
  function Substitute(pattern: Pattern, value: Replace, s: string): Option<string>
    decreases |s|
  {
    var n := pattern(s);
    if s == "" then Some("")
    else if n == 0 then Prepend(s[..1], Substitute(pattern, value, s[1..]))
    else match value(s[..n])
      case None => None
      case Some(v) => Prepend(v, Substitute(pattern, value, s[n..]))
  }

  predicate Escaped(m: string) {
    |m| > 1 && m[0] == '$' && m[1] == '$'
  }

  function Name(m: string): string {
    if |m| < 3 then "" else m[2..|m| - 1]
  }

  // What becomes of one match.
  function ValueOf(replace: Replace): Replace {
    (m: string) => if Escaped(m) then Some(m[1..]) else replace(Name(m))
  }

  // ----- the implementation: find all matches first, then copy and replace -----

  datatype Match = Match(start: nat, end: nat)

  predicate Ordered(s: string, from: nat, ms: seq<Match>)
    decreases |ms|
  {
    if ms == [] then from <= |s|
    else from <= ms[0].start < ms[0].end <= |s| && Ordered(s, ms[0].end, ms[1..])
  }

  // Leftmost matches that do not overlap.
  function FindAll(pattern: Pattern, s: string, from: nat): (ms: seq<Match>)
    requires from <= |s|
    ensures Ordered(s, from, ms)
    decreases |s| - from
  {
    var n := pattern(s[from..]);
    if from == |s| then []
    else if n == 0 then FindAll(pattern, s, from + 1)
    else
      var rest := FindAll(pattern, s, from + n);
      assert ([Match(from, from + n)] + rest)[1..] == rest;
      [Match(from, from + n)] + rest
  }

  // The string put together again from position pos on, its matches replaced.
  function Assemble(s: string, pos: nat, ms: seq<Match>, value: Replace): Option<string>
    requires Ordered(s, pos, ms)
    decreases |ms|
  {
    if ms == [] then Some(s[pos..])
    else match value(s[ms[0].start..ms[0].end])
      case None => None
      case Some(v) => Prepend(s[pos..ms[0].start] + v, Assemble(s, ms[0].end, ms[1..], value))
  }

  lemma PrependTwice(a: string, b: string, rest: Option<string>)
    ensures Prepend(a, Prepend(b, rest)) == Prepend(a + b, rest)
    ensures Prepend("", rest) == rest
  {
    if rest.Some? {
      assert a + (b + rest.value) == (a + b) + rest.value;
      assert "" + rest.value == rest.value;
    }
  }

  lemma AssembleEarlier(s: string, pos: nat, ms: seq<Match>, value: Replace)
    requires pos < |s| && Ordered(s, pos + 1, ms)
    ensures Ordered(s, pos, ms)
    ensures Assemble(s, pos, ms, value) == Prepend(s[pos..pos + 1], Assemble(s, pos + 1, ms, value))
  {
    if ms == [] {
      assert s[pos..] == s[pos..pos + 1] + s[pos + 1..];
    } else {
      var text := s[ms[0].start..ms[0].end];
      if value(text).Some? {
        var rest := Assemble(s, ms[0].end, ms[1..], value);
        PrependTwice(s[pos..pos + 1], s[pos + 1..ms[0].start] + value(text).value, rest);
        assert s[pos..pos + 1] + (s[pos + 1..ms[0].start] + value(text).value)
          == s[pos..ms[0].start] + value(text).value;
      }
    }
  }

  lemma SubstituteStep(pattern: Pattern, value: Replace, s: string, from: nat)
    requires from < |s|
    ensures var n := pattern(s[from..]);
      && from + n <= |s|
      && Substitute(pattern, value, s[from..]) ==
           if n == 0 then Prepend(s[from..from + 1], Substitute(pattern, value, s[from + 1..]))
           else match value(s[from..from + n])
             case None => None
             case Some(v) => Prepend(v, Substitute(pattern, value, s[from + n..]))
  {
    var here, n := s[from..], pattern(s[from..]);
    assert here[..1] == s[from..from + 1] && here[1..] == s[from + 1..];
    assert here[..n] == s[from..from + n] && here[n..] == s[from + n..];
  }

  lemma AssembleHere(s: string, from: nat, n: nat, ms: seq<Match>, value: Replace)
    requires 0 < n && from + n <= |s| && Ordered(s, from + n, ms)
    ensures Ordered(s, from, [Match(from, from + n)] + ms)
    ensures Assemble(s, from, [Match(from, from + n)] + ms, value) ==
      match value(s[from..from + n])
      case None => None
      case Some(v) => Prepend(v, Assemble(s, from + n, ms, value))
  {
    assert ([Match(from, from + n)] + ms)[1..] == ms && s[from..from] == "";
    if value(s[from..from + n]).Some? {
      assert "" + value(s[from..from + n]).value == value(s[from..from + n]).value;
    }
  }

  lemma FoundNothingHere(pattern: Pattern, value: Replace, s: string, from: nat)
    requires from < |s| && pattern(s[from..]) == 0
    ensures Assemble(s, from, FindAll(pattern, s, from), value)
      == Prepend(s[from..from + 1], Assemble(s, from + 1, FindAll(pattern, s, from + 1), value))
  {
    AssembleEarlier(s, from, FindAll(pattern, s, from + 1), value);
  }

  lemma FoundHere(pattern: Pattern, value: Replace, s: string, from: nat, n: nat)
    requires from < |s| && 0 < n == pattern(s[from..])
    ensures from + n <= |s|
    ensures Assemble(s, from, FindAll(pattern, s, from), value) ==
      match value(s[from..from + n])
      case None => None
      case Some(v) => Prepend(v, Assemble(s, from + n, FindAll(pattern, s, from + n), value))
  {
    AssembleHere(s, from, n, FindAll(pattern, s, from + n), value);
  }

  lemma FoundAtEnd(pattern: Pattern, value: Replace, s: string)
    ensures Assemble(s, |s|, FindAll(pattern, s, |s|), value) == Substitute(pattern, value, s[|s|..])
  {
    assert s[|s|..] == "";
  }

  /** Finding all matches first and copying around them is reading from left to right. */
  lemma {:induction false} AssembleIsSubstitute(pattern: Pattern, value: Replace, s: string, from: nat)
    requires from <= |s|
    ensures Assemble(s, from, FindAll(pattern, s, from), value) == Substitute(pattern, value, s[from..])
    decreases |s| - from
  {
    hide FindAll;
    hide Assemble;
    hide Substitute;
    if from == |s| {
      FoundAtEnd(pattern, value, s);
    } else {
      var n := pattern(s[from..]);
      SubstituteStep(pattern, value, s, from);
      if n == 0 {
        FoundNothingHere(pattern, value, s, from);
        AssembleIsSubstitute(pattern, value, s, from + 1);
      } else {
        FoundHere(pattern, value, s, from, n);
        AssembleIsSubstitute(pattern, value, s, from + n);
      }
    }
  }

  lemma AssembleNext(s: string, pos: nat, ms: seq<Match>, value: Replace, copied: string)
    requires ms != [] && Ordered(s, pos, ms)
    ensures var m, total := ms[0], Prepend(copied, Assemble(s, pos, ms, value));
      match value(s[m.start..m.end])
      case None => total == None
      case Some(v) => total == Prepend(copied + s[pos..m.start] + v, Assemble(s, m.end, ms[1..], value))
  {
    var m := ms[0];
    var v := value(s[m.start..m.end]);
    if v.Some? {
      PrependTwice(copied, s[pos..m.start] + v.value, Assemble(s, m.end, ms[1..], value));
      assert copied + (s[pos..m.start] + v.value) == copied + s[pos..m.start] + v.value;
    }
  }

  lemma AssembleEnd(s: string, pos: nat, value: Replace, copied: string)
    requires pos <= |s|
    ensures Prepend(copied, Assemble(s, pos, [], value)) == Some(copied + s[pos..|s|])
  {
    assert s[pos..|s|] == s[pos..];
  }

  // The loop of ParseString: copy up to the first match, then replace and copy on, match by match.
  method ReplaceAll(s: string, matches: seq<Match>, value: Replace) returns (result: Option<string>)
    requires matches != [] && Ordered(s, 0, matches)
    ensures result == Assemble(s, 0, matches, value)
  {
    ghost var total := Assemble(s, 0, matches, value);
    var newValue := s[..matches[0].start];
    ghost var pos: nat, copied := 0, "";
    assert matches[0..] == matches;
    PrependTwice("", "", total);
    for index := 0 to |matches|
      invariant pos <= |s| && Ordered(s, pos, matches[index..])
      invariant newValue == copied + s[pos..if index < |matches| then matches[index].start else |s|]
      invariant total == Prepend(copied, Assemble(s, pos, matches[index..], value))
    {
      var m := matches[index];
      assert matches[index..][0] == m && matches[index..][1..] == matches[index + 1..];
      AssembleNext(s, pos, matches[index..], value, copied);
      var v := value(s[m.start..m.end]);
      if v.None? {
        return None;
      }
      newValue := newValue + v.value;
      pos, copied := m.end, newValue;
      if index + 1 >= |matches| {
        newValue := newValue + s[m.end..];
      } else {
        newValue := newValue + s[m.end..matches[index + 1].start];
      }
    }
    AssembleEnd(s, pos, value, copied);
    return Some(newValue);
  }

  function Parse(s: string, replace: Replace): Parsed {
    if IsExpression(s) then
      match replace(s[3..|s| - 2]) case None => Failed case Some(yaml) => Decoded(yaml)
    else
      match Substitute(VARIABLE, ValueOf(replace), s) case None => Failed case Some(text) => Text(text)
  }

  /** A whole expression is decoded, or fails with replace, and nothing else is ever decoded. */
  lemma DecodedExactly(s: string, replace: Replace)
    ensures forall name: string | name != "" && '}' !in name && s == "${{" + name + "}}" ::
      Parse(s, replace) == match replace(name) case None => Failed case Some(v) => Decoded(v)
    ensures Parse(s, replace).Decoded? ==> exists name: string :: name != "" && '}' !in name && s == "${{" + name + "}}"
    ensures (forall name: string :: name != "" && '}' !in name ==> s != "${{" + name + "}}") ==>
      Parse(s, replace) ==
        match Substitute(VARIABLE, ValueOf(replace), s) case None => Failed case Some(text) => Text(text)
  {
    ExpressionExactly(s);
    forall name: string | name != "" && '}' !in name && s == "${{" + name + "}}" ensures s[3..|s| - 2] == name {}
  }

  method ParseString(value: string, replace: Replace) returns (result: Parsed)
    ensures result == Parse(value, replace)
  {
    if IsExpression(value) {
      var replaced := replace(value[3..|value| - 2]);
      if replaced.None? {
        return Failed;
      }
      return Decoded(replaced.value);
    }
    var matches := FindAll(VARIABLE, value, 0);
    AssembleIsSubstitute(VARIABLE, ValueOf(replace), value, 0);
    assert value[0..] == value;
    if |matches| == 0 {
      return Text(value);
    }
    var newValue := ReplaceAll(value, matches, ValueOf(replace));
    if newValue.None? {
      return Failed;
    }
    return Text(newValue.value);
  }

  // ----- escaping -----

  // One more dollar before every variable.
  function Escape(pattern: Pattern, s: string): string
    decreases |s|
  {
    var n := pattern(s);
    if s == "" then ""
    else if n == 0 then s[..1] + Escape(pattern, s[1..])
    else "$" + s[..n] + Escape(pattern, s[n..])
  }

  function Dollars(n: nat): string {
    seq(n, i => '$')
  }

  lemma {:induction false} DollarsThen(n: nat, t: string)
    requires t == "" || t[0] != '$'
    ensures LeadingDollars(Dollars(n) + t) == n && (Dollars(n) + t)[n..] == t
  {
    if n > 0 {
      DollarsThen(n - 1, t);
      assert (Dollars(n) + t)[1..] == Dollars(n - 1) + t;
    } else {
      assert Dollars(0) + t == t;
    }
  }

  lemma {:induction false} CloseThen(name: string, t: string)
    requires '}' !in name && t != "" && t[0] == '}'
    ensures FirstClose(name + t) == |name|
  {
    if name == "" {
      assert name + t == t;
    } else {
      assert name[0] in name && forall c | c in name[1..] :: c in name;
      CloseThen(name[1..], t);
      assert (name + t)[1..] == name[1..] + t;
    }
  }

  // A braced nonempty name starts here.
  predicate Braced(s: string) {
    s != "" && s[0] == '{' && 0 < FirstClose(s[1..]) < |s| - 1
  }

  lemma VarMeans(d: nat, t: string)
    requires t == "" || t[0] != '$'
    ensures VarLength(Dollars(d) + t) == if d > 0 && Braced(t) then d + 2 + FirstClose(t[1..]) else 0
  {
    var s := Dollars(d) + t;
    DollarsThen(d, t);
    if t != "" {
      assert s[d..][1..] == s[d + 1..] && s[d] == t[0];
    }
  }

  // Some dollars, and something that does not begin with one.
  lemma SplitDollars(s: string) returns (d: nat, t: string)
    ensures s == Dollars(d) + t && (t == "" || t[0] != '$') && d == LeadingDollars(s)
  {
    d := LeadingDollars(s);
    t := s[d..];
    assert s[..d] == Dollars(d);
  }

  // The parts of a string that starts with a variable.
  lemma VarParts(s: string) returns (d: nat, name: string, t: string)
    requires VarLength(s) > 0
    ensures s == Dollars(d) + ("{" + name + "}" + t) && d == LeadingDollars(s) > 0 && name != "" && '}' !in name
    ensures VarLength(s) == d + |name| + 2 && s[..VarLength(s)] == Dollars(d) + "{" + name + "}"
    ensures t == s[VarLength(s)..]
  {
    hide VarLength;
    hide LeadingDollars;
    var rest;
    d, rest := SplitDollars(s);
    VarMeans(d, rest);
    var c := FirstClose(rest[1..]);
    name, t := rest[1..][..c], rest[1..][c + 1..];
    assert rest == "{" + name + "}" + t;
  }

  /** Dollars before a braced name without a closing brace are a variable, whatever follows. */
  lemma VarIs(d: nat, name: string, t: string)
    requires d > 0 && name != "" && '}' !in name
    ensures VarLength(Dollars(d) + ("{" + name + "}" + t)) == d + |name| + 2
  {
    var rest := "{" + name + "}" + t;
    assert rest[1..] == name + ("}" + t);
    CloseThen(name, "}" + t);
    VarMeans(d, rest);
  }

  // ----- escaping keeps variables, and adds none -----

  // What escaping does at the start of a string.
  ghost predicate EscapesWell(pattern: Pattern, s: string) {
    var n, e := pattern(s), Escape(pattern, s);
    if n == 0 then pattern(e) == 0
    else pattern(e) == n + 1 && n < |e| && e[..n + 1] == "$" + s[..n] && e[n + 1..] == Escape(pattern, s[n..])
  }

  lemma WellFrom(pattern: Pattern, s: string, text: string)
    requires pattern(s) > 0 && text == "$" + s[..pattern(s)]
    requires pattern(text + Escape(pattern, s[pattern(s)..])) == pattern(s) + 1
    ensures EscapesWell(pattern, s)
  {
    var rest := Escape(pattern, s[pattern(s)..]);
    assert Escape(pattern, s) == text + rest && |text| == pattern(s) + 1;
    assert (text + rest)[..|text|] == text && (text + rest)[|text|..] == rest;
  }

  lemma OneMoreDollar(d: nat, name: string, rest: string)
    ensures var text := "$" + (Dollars(d) + "{" + name + "}");
      text + rest == Dollars(d + 1) + ("{" + name + "}" + rest) && (d > 0 ==> Escaped(text))
  {
    assert Dollars(d + 1) == "$" + Dollars(d);
  }

  lemma EscapeVar(s: string)
    requires VarLength(s) > 0
    ensures EscapesWell(VARIABLE, s) && Escaped("$" + s[..VarLength(s)])
  {
    var d, name, t := VarParts(s);
    var rest := Escape(VARIABLE, t);
    assert VARIABLE(s) == VarLength(s);
    hide Escape;
    OneMoreDollar(d, name, rest);
    VarIs(d + 1, name, rest);
    var text := "$" + s[..VarLength(s)];
    assert VARIABLE(text + rest) == VarLength(text + rest);
    hide VarLength;
    WellFrom(VARIABLE, s, text);
  }

  lemma {:induction false} NothingToEscape(s: string)
    requires '}' !in s
    ensures Escape(VARIABLE, s) == s
  {
    if s != "" {
      assert VARIABLE(s) == 0;
      assert forall c | c in s[1..] :: c in s;
      NothingToEscape(s[1..]);
      assert s == s[..1] + s[1..];
    }
  }

  lemma NotBraced(t: string)
    requires !Braced(t) && (t != "" ==> t[0] != '$')
    ensures var e := Escape(VARIABLE, t);
      !Braced(e) && (e != "" ==> e[0] != '$')
  {
    if t != "" {
      var e, rest := Escape(VARIABLE, t), t[1..];
      assert VARIABLE(t) == 0 && e == t[..1] + Escape(VARIABLE, rest) && e[1..] == Escape(VARIABLE, rest);
      if t[0] == '{' && rest != "" {
        if rest[0] == '}' {
          assert VARIABLE(rest) == 0;
          assert Escape(VARIABLE, rest) == rest[..1] + Escape(VARIABLE, rest[1..]);
        } else {
          assert '}' !in rest;
          NothingToEscape(rest);
        }
      }
    }
  }

  lemma EscapePlain(s: string)
    requires s != "" && VarLength(s) == 0
    ensures Escape(VARIABLE, s) == s[..1] + Escape(VARIABLE, s[1..])
  {
    assert VARIABLE(s) == 0;
  }

  lemma FirstDollar(d: nat, u: string)
    ensures d == 0 ==> Dollars(d) + u == u
    ensures d > 0 ==>
      var s := Dollars(d) + u;
      s == "$" + (Dollars(d - 1) + u) && s[..1] == "$" && s[1..] == Dollars(d - 1) + u
  {
  }

  lemma {:induction false} EscapeDollars(d: nat, t: string)
    requires !Braced(t) && (t != "" ==> t[0] != '$')
    ensures Escape(VARIABLE, Dollars(d) + t) == Dollars(d) + Escape(VARIABLE, t)
  {
    hide Escape;
    hide VarLength;
    FirstDollar(d, t);
    FirstDollar(d, Escape(VARIABLE, t));
    if d > 0 {
      EscapeDollars(d - 1, t);
      VarMeans(d, t);
      EscapePlain(Dollars(d) + t);
    }
  }

  lemma EscapeNoVar(s: string)
    requires VarLength(s) == 0
    ensures EscapesWell(VARIABLE, s)
  {
    var d, t := SplitDollars(s);
    VarMeans(d, t);
    if d == 0 {
      assert s == t;
      assert Escape(VARIABLE, s) == "" || Escape(VARIABLE, s)[0] == s[0];
    } else {
      NotBraced(t);
      EscapeDollars(d, t);
      VarMeans(d, Escape(VARIABLE, t));
    }
  }

  lemma AlwaysEscapesWell(s: string)
    ensures EscapesWell(VARIABLE, s)
  {
    if VarLength(s) == 0 { EscapeNoVar(s); } else { EscapeVar(s); }
  }

  lemma PlainRead(pattern: Pattern, value: Replace, s: string)
    requires s != "" && pattern(s) == 0
    ensures Substitute(pattern, value, s) == Prepend(s[..1], Substitute(pattern, value, s[1..]))
  {
  }

  lemma MatchRead(pattern: Pattern, value: Replace, s: string, v: string)
    requires pattern(s) > 0 && value(s[..pattern(s)]) == Some(v)
    ensures Substitute(pattern, value, s) == Prepend(v, Substitute(pattern, value, s[pattern(s)..]))
  {
  }

  lemma PlainEscape(pattern: Pattern, s: string)
    requires s != "" && pattern(s) == 0
    ensures var e := Escape(pattern, s);
      e != "" && e[..1] == s[..1] && e[1..] == Escape(pattern, s[1..])
  {
  }

  // An escaped match loses its additional dollar.
  ghost predicate Undone(pattern: Pattern, value: Replace, s: string) {
    pattern(s) > 0 ==> value("$" + s[..pattern(s)]) == Some(s[..pattern(s)])
  }

  lemma MatchEscape(pattern: Pattern, value: Replace, s: string)
    requires EscapesWell(pattern, s) && Undone(pattern, value, s) && pattern(s) > 0
    ensures var n, e := pattern(s), Escape(pattern, s);
      && Substitute(pattern, value, e) == Prepend(s[..n], Substitute(pattern, value, Escape(pattern, s[n..])))
      && n <= |s|
  {
    MatchRead(pattern, value, Escape(pattern, s), s[..pattern(s)]);
  }

  lemma PlainEscapeRead(pattern: Pattern, value: Replace, s: string)
    requires EscapesWell(pattern, s) && s != "" && pattern(s) == 0
    ensures Substitute(pattern, value, Escape(pattern, s))
      == Prepend(s[..1], Substitute(pattern, value, Escape(pattern, s[1..])))
  {
    PlainEscape(pattern, s);
    PlainRead(pattern, value, Escape(pattern, s));
  }

  lemma {:induction false} EscapedSubstitutes(pattern: Pattern, value: Replace, s: string)
    requires forall t :: EscapesWell(pattern, t) && Undone(pattern, value, t)
    ensures Substitute(pattern, value, Escape(pattern, s)) == Some(s)
    decreases |s|
  {
    if s != "" {
      hide Substitute;
      hide Escape;
      hide EscapesWell;
      hide Undone;
      var n := pattern(s);
      assert EscapesWell(pattern, s) && Undone(pattern, value, s);
      if n == 0 {
        EscapedSubstitutes(pattern, value, s[1..]);
        PlainEscapeRead(pattern, value, s);
        assert s == s[..1] + s[1..];
      } else {
        EscapedSubstitutes(pattern, value, s[n..]);
        MatchEscape(pattern, value, s);
        assert s == s[..n] + s[n..];
      }
    }
  }

  lemma ExpressionIsVar(s: string)
    requires IsExpression(s)
    ensures VarLength(s) > 0 && s[0] == '$' && s[1] == '{'
  {
    ExpressionExactly(s);
    var name: string :| name != "" && '}' !in name && s == "${{" + name + "}}";
    assert '}' !in "{" + name;
    assert s == Dollars(1) + ("{" + ("{" + name) + "}" + "}");
    VarIs(1, "{" + name, "}");
  }

  /**
   Escaping and parsing give back any string, for every replace function, also one that always
   fails: it is not asked.
   */
  lemma EscapeRoundTrip(s: string, replace: Replace)
    ensures Parse(Escape(VARIABLE, s), replace) == Text(s)
  {
    var value, e := ValueOf(replace), Escape(VARIABLE, s);
    forall t ensures EscapesWell(VARIABLE, t) && Undone(VARIABLE, value, t) {
      AlwaysEscapesWell(t);
      if VARIABLE(t) > 0 {
        EscapeVar(t);
        assert ("$" + t[..VARIABLE(t)])[1..] == t[..VARIABLE(t)];
      }
    }
    EscapedSubstitutes(VARIABLE, value, s);
    NoExpression(s);
  }

  // What escaping gives begins with two dollars, or with no variable at all.
  lemma NoExpression(s: string)
    ensures !IsExpression(Escape(VARIABLE, s))
  {
    var e := Escape(VARIABLE, s);
    AlwaysEscapesWell(s);
    if VarLength(s) > 0 {
      var n := VARIABLE(s);
      assert ("$" + s[..n])[1] == s[0] == '$' && e[..n + 1] == "$" + s[..n];
      assert e[1] == '$';
    }
    if IsExpression(e) {
      ExpressionIsVar(e);
    }
  }

  // ----- what becomes of one variable -----

  // A single dollar: the name is looked up; more dollars: one goes.
  function VariableText(d: nat, name: string, replace: Replace): Option<string>
    requires d > 0
  {
    if d == 1 then replace(name) else Some(Dollars(d - 1) + "{" + name + "}")
  }

  lemma VariableValue(d: nat, name: string, replace: Replace)
    requires d > 0 && name != ""
    ensures ValueOf(replace)(Dollars(d) + "{" + name + "}") == VariableText(d, name, replace)
  {
    var m := Dollars(d) + "{" + name + "}";
    if d == 1 {
      assert m[1] == '{' && Name(m) == name;
    } else {
      assert Dollars(d) == "$" + Dollars(d - 1);
      assert m == "$" + (Dollars(d - 1) + "{" + name + "}");
      assert m[1..] == Dollars(d - 1) + "{" + name + "}" && m[1] == Dollars(d - 1)[0];
      assert Escaped(m);
      assert ValueOf(replace)(m) == Some(m[1..]);
    }
  }

  lemma VariableAtStart(d: nat, name: string, post: string, replace: Replace)
    requires d > 0 && name != "" && '}' !in name
    ensures Substitute(VARIABLE, ValueOf(replace), Dollars(d) + ("{" + name + "}" + post)) ==
      match VariableText(d, name, replace)
      case None => None
      case Some(v) => Prepend(v, Substitute(VARIABLE, ValueOf(replace), post))
  {
    VarIs(d, name, post);
    VariableValue(d, name, replace);
    SameParts(d, name, post);
    var m := Dollars(d) + "{" + name + "}";
    assert VARIABLE(m + post) == |m|;
    hide Substitute;
    hide VarLength;
    hide Dollars;
    hide ValueOf;
    hide VariableText;
    MatchFirst(VARIABLE, ValueOf(replace), m, post);
  }

  lemma SameParts(d: nat, name: string, post: string)
    ensures Dollars(d) + ("{" + name + "}" + post) == (Dollars(d) + "{" + name + "}") + post
    ensures |Dollars(d) + "{" + name + "}"| == d + |name| + 2
  {
  }

  lemma MatchFirst(pattern: Pattern, value: Replace, m: string, post: string)
    requires m != "" && pattern(m + post) == |m|
    ensures Substitute(pattern, value, m + post) ==
      match value(m)
      case None => None
      case Some(v) => Prepend(v, Substitute(pattern, value, post))
  {
    assert (m + post)[..|m|] == m && (m + post)[|m|..] == post;
  }

  lemma NoVariable(s: string)
    requires s != "" && s[0] != '$'
    ensures VARIABLE(s) == 0
  {
  }

  /**
   Text without a dollar is kept; then a variable is replaced by what replace gives for its name,
   or is an error if replace fails; written with more dollars it loses one and is kept; and the rest
   is read in the same way.
   */
  lemma {:induction false} VariableReplaced(pre: string, d: nat, name: string, post: string, replace: Replace)
    requires '$' !in pre && d > 0 && name != "" && '}' !in name
    ensures Substitute(VARIABLE, ValueOf(replace), pre + (Dollars(d) + ("{" + name + "}" + post))) ==
      match (if d == 1 then replace(name) else Some(Dollars(d - 1) + "{" + name + "}"))
      case None => None
      case Some(v) => Prepend(pre + v, Substitute(VARIABLE, ValueOf(replace), post))
  {
    hide Substitute;
    hide VarLength;
    hide Dollars;
    var rest, value := Dollars(d) + ("{" + name + "}" + post), ValueOf(replace);
    var last := Substitute(VARIABLE, value, post);
    var v := VariableText(d, name, replace);
    if pre == "" {
      assert pre + rest == rest && forall v: string :: pre + v == v;
      VariableAtStart(d, name, post, replace);
    } else {
      VariableReplaced(pre[1..], d, name, post, replace);
      KeepFirst(pre, rest, value);
      if v.Some? {
        PrependTwice(pre[..1], pre[1..] + v.value, last);
        assert pre[..1] + (pre[1..] + v.value) == pre + v.value;
      }
    }
  }

  lemma KeepFirst(pre: string, rest: string, value: Replace)
    requires pre != "" && '$' !in pre
    ensures '$' !in pre[1..]
    ensures Substitute(VARIABLE, value, pre + rest) == Prepend(pre[..1], Substitute(VARIABLE, value, pre[1..] + rest))
  {
    var s := pre + rest;
    assert pre[0] in pre && forall c | c in pre[1..] :: c in pre;
    assert s[0] == pre[0] && s[1..] == pre[1..] + rest && s[..1] == pre[..1];
    NoVariable(s);
    PlainRead(VARIABLE, value, s);
  }

  // ----- unknown variables are left alone -----

  predicate HasEscape(pattern: Pattern, s: string)
    decreases |s|
  {
    var n := pattern(s);
    s != "" && if n == 0 then HasEscape(pattern, s[1..]) else Escaped(s[..n]) || HasEscape(pattern, s[n..])
  }

  function Unknown(name: string): Option<string> {
    Some("${" + name + "}")
  }

  // A match whose name is unknown stays as it is, unless it is escaped.
  predicate Stays(value: Replace, m: string) {
    value(m) == Some(if Escaped(m) then m[1..] else m)
  }

  lemma UnknownStays(s: string)
    requires VarLength(s) > 0
    ensures Stays(ValueOf(Unknown), s[..VarLength(s)])
  {
    var m := s[..VarLength(s)];
    var d, name, t := VarParts(s);
    if !Escaped(m) {
      assert d == 1 && m == "$" + "{" + name + "}";
      assert Name(m) == name && ValueOf(Unknown)(m) == Unknown(name);
      assert "${" + name + "}" == m;
    }
  }

  lemma {:induction false} UnknownSubstitutes(pattern: Pattern, value: Replace, s: string)
    requires forall t | pattern(t) > 0 :: Stays(value, t[..pattern(t)])
    ensures var r := Substitute(pattern, value, s);
      r.Some? && |r.value| <= |s| && (HasEscape(pattern, s) ==> |r.value| < |s|)
        && (!HasEscape(pattern, s) ==> r.value == s)
    decreases |s|
  {
    if s != "" {
      var n := pattern(s);
      if n == 0 {
        UnknownSubstitutes(pattern, value, s[1..]);
        PlainRead(pattern, value, s);
        assert s == s[..1] + s[1..];
      } else {
        UnknownSubstitutes(pattern, value, s[n..]);
        assert Stays(value, s[..n]);
        MatchRead(pattern, value, s, if Escaped(s[..n]) then s[..n][1..] else s[..n]);
        assert s == s[..n] + s[n..];
      }
      hide Substitute;
    }
  }

  /** With every name unknown, a string comes back unchanged exactly when it is no expression and escapes nothing. */
  lemma UnknownUnchangedExactly(s: string)
    ensures Parse(s, Unknown) == Text(s) <==> !IsExpression(s) && !HasEscape(VARIABLE, s)
  {
    forall t | VARIABLE(t) > 0 ensures Stays(ValueOf(Unknown), t[..VARIABLE(t)]) {
      UnknownStays(t);
    }
    UnknownSubstitutes(VARIABLE, ValueOf(Unknown), s);
  }
}
