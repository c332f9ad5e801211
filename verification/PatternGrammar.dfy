/** The scanner accepts exactly the grammar, and the validator exactly its anchored forms but for one family. */
module PatternGrammar {
  import opened Common
  import opened Text
  import opened PortablePattern

  // ---- Every grammatical text is accepted ---------------------------------

  lemma {:induction false} BodyOf(body: string, rest: string)
    requires ClassItems(body)
    ensures BodyLength(body + "]" + rest) == Some(|body|)
    decreases |body|
  {
    hide Escapable;
    var s := body + "]" + rest;
    if body != "" {
      var k := if body[0] == '\\' then 2 else 1;
      BodyOf(body[k..], rest);
      assert s[k..] == body[k..] + "]" + rest;
    }
  }

  lemma {:induction false} DigitsOf(digits: string, end: char, rest: string)
    requires AllDigits(digits) && !IsDigit(end)
    ensures DigitRun(digits + [end] + rest) == |digits|
    decreases |digits|
  {
    var s := digits + [end] + rest;
    if digits != "" {
      DigitsOf(digits[1..], end, rest);
      assert s[1..] == digits[1..] + [end] + rest;
    }
  }

  lemma BracesOf(q: Quantifier, rest: string)
    requires q.Range? && QuantifierValid(q)
    ensures BraceLength(QuantifierText(q) + rest) == Some(|QuantifierText(q)|)
  {
    hide BraceLength, AllDigits;
    if q.high.None? {
      ExactBraces(q.low, rest);
      assert QuantifierText(q) + rest == "{" + (q.low + ['}'] + rest);
    } else {
      OpenBraces(q.low, q.high.value, rest);
      assert QuantifierText(q) + rest == "{" + (q.low + [','] + (q.high.value + ['}'] + rest));
    }
  }

  lemma ExactBraces(low: string, rest: string)
    requires low != "" && AllDigits(low)
    ensures BraceLength("{" + (low + ['}'] + rest)) == Some(|low| + 2)
  {
    DigitsOf(low, '}', rest);
    hide DigitRun, AllDigits;
    var tail := low + ['}'] + rest;
    assert ("{" + tail)[1..] == tail && tail[|low|] == '}';
  }

  lemma OpenBraces(low: string, high: string, rest: string)
    requires low != "" && AllDigits(low) && AllDigits(high)
    ensures BraceLength("{" + (low + [','] + (high + ['}'] + rest))) == Some(|low| + |high| + 3)
  {
    var after := high + ['}'] + rest;
    DigitsOf(low, ',', after);
    DigitsOf(high, '}', rest);
    hide DigitRun, AllDigits, BraceLength;
    var tail := low + [','] + after;
    assert ("{" + tail)[1..] == tail && tail[|low|] == ',';
    assert ("{" + tail)[|low| + 2..] == after && after[|high|] == '}';
    OpenBraceLength("{" + tail, |low|, |high|);
  }

  lemma OpenBraceLength(s: string, n: nat, m: nat)
    requires n >= 1 && |s| > n + m + 2 && s[0] == '{' && DigitRun(s[1..]) == n && s[n + 1] == ','
    requires DigitRun(s[n + 2..]) == m && s[n + m + 2] == '}'
    ensures BraceLength(s) == Some(n + m + 3)
  {
  }

  lemma QuantifierMoves(q: Quantifier, rest: string, depth: nat)
    requires q != Once && QuantifierValid(q)
    ensures QuantifierText(q) != ""
    ensures Next(QuantifierText(q) + rest, depth, true) == Some(Move(|QuantifierText(q)|, depth, false))
  {
    hide BraceLength;
    if q.Range? {
      BracesOf(q, rest);
    }
  }

  lemma ClassMoves(negated: bool, body: string, rest: string, depth: nat, canQuantify: bool)
    requires AtomValid(Class(negated, body))
    ensures var text := AtomText(Class(negated, body));
      Next(text + rest, depth, canQuantify) == Some(Move(|text|, depth, true))
  {
    var s := AtomText(Class(negated, body)) + rest;
    var start := if negated then 2 else 1;
    BodyOf(body, rest);
    hide ClassItems, BodyLength;
    assert s[start..] == body + "]" + rest;
    assert s[1] == if negated then '^' else body[0];
  }

  /** Whether a quantifier may follow a text, given whether one might before it. */
  function BranchFlag(b: Branch, before: bool): bool {
    if b.Nothing? then before else b.last.quantifier == Once
  }

  function PatternFlag(p: Pattern, before: bool): bool {
    BranchFlag(p.branch, if p.One? then before else false)
  }

  lemma MoveScans(text: string, rest: string, depth: nat, canQuantify: bool, m: Move)
    requires text != "" && Next(text + rest, depth, canQuantify) == Some(m) && m.length == |text|
    ensures Scan(text + rest, depth, canQuantify) == Scan(rest, m.depth, m.canQuantify)
  {
  }

  lemma {:induction false} AtomScans(a: Atom, rest: string, depth: nat, canQuantify: bool)
    requires AtomValid(a)
    ensures Scan(AtomText(a) + rest, depth, canQuantify) == Scan(rest, depth, true)
    decreases a
  {
    hide Scan, Escapable;
    match a
    case Char(c) =>
      NormalIsTheRest(c);
      MoveScans([c], rest, depth, canQuantify, Move(1, depth, true));
    case Escape(c) =>
      assert (AtomText(a) + rest)[1] == c;
      MoveScans(AtomText(a), rest, depth, canQuantify, Move(2, depth, true));
    case Class(negated, body) =>
      ClassMoves(negated, body, rest, depth, canQuantify);
      MoveScans(AtomText(a), rest, depth, canQuantify, Move(|AtomText(a)|, depth, true));
    case Group(inner) =>
      var text := PatternText(inner);
      assert AtomText(a) + rest == "(" + (text + (")" + rest));
      MoveScans("(", text + (")" + rest), depth, canQuantify, Move(1, depth + 1, false));
      PatternScans(inner, ")" + rest, depth + 1, false);
      MoveScans(")", rest, depth + 1, PatternFlag(inner, false), Move(1, depth, true));
  }

  lemma {:induction false} BranchScans(b: Branch, rest: string, depth: nat, canQuantify: bool)
    requires BranchValid(b)
    ensures Scan(BranchText(b) + rest, depth, canQuantify) == Scan(rest, depth, BranchFlag(b, canQuantify))
    decreases b
  {
    hide Scan, Next;
    if b.Nothing? {
      assert BranchText(b) + rest == rest;
    } else {
      var atom, q := b.last.atom, b.last.quantifier;
      var after := QuantifierText(q) + rest;
      assert BranchText(b) + rest == BranchText(b.init) + (AtomText(atom) + after);
      BranchScans(b.init, AtomText(atom) + after, depth, canQuantify);
      AtomScans(atom, after, depth, BranchFlag(b.init, canQuantify));
      if q == Once {
        assert after == rest;
      } else {
        QuantifierMoves(q, rest, depth);
        MoveScans(QuantifierText(q), rest, depth, true, Move(|QuantifierText(q)|, depth, false));
      }
    }
  }

  lemma {:induction false} PatternScans(p: Pattern, rest: string, depth: nat, canQuantify: bool)
    requires PatternValid(p)
    ensures Scan(PatternText(p) + rest, depth, canQuantify) == Scan(rest, depth, PatternFlag(p, canQuantify))
    decreases p
  {
    hide Scan;
    if p.One? {
      BranchScans(p.branch, rest, depth, canQuantify);
    } else {
      var after := BranchText(p.branch) + rest;
      assert PatternText(p) + rest == PatternText(p.init) + ("|" + after);
      PatternScans(p.init, "|" + after, depth, canQuantify);
      MoveScans("|", after, depth, PatternFlag(p.init, canQuantify), Move(1, depth, false));
      BranchScans(p.branch, rest, depth, false);
    }
  }

  // ---- Every accepted text is grammatical ---------------------------------

  /** The parse behind the counter and the flag: the pattern under way in each open group, outermost first. */
  datatype Stack = Outermost(open: Pattern) | Inside(outer: Stack, open: Pattern)
  {
    function Text(): string {
      match this
      case Outermost(p) => PatternText(p)
      case Inside(outer, p) => outer.Text() + "(" + PatternText(p)
    }

    function Depth(): nat {
      if Outermost? then 0 else outer.Depth() + 1
    }

    predicate Valid() {
      PatternValid(open) && (Inside? ==> outer.Valid())
    }

    function WithOpen(p: Pattern): Stack {
      match this
      case Outermost(_) => Outermost(p)
      case Inside(outer, _) => Inside(outer, p)
    }
  }

  function WithAtom(p: Pattern, a: Atom): Pattern {
    p.(branch := Append(p.branch, Piece(a, Once)))
  }

  function Quantified(p: Pattern, q: Quantifier): Pattern
    requires PatternFlag(p, false)
  {
    p.(branch := p.branch.(last := p.branch.last.(quantifier := q)))
  }

  lemma WithOpenText(k: Stack, p: Pattern, more: string)
    requires k.Valid() && PatternValid(p) && PatternText(p) == PatternText(k.open) + more
    ensures k.WithOpen(p).Valid() && k.WithOpen(p).open == p
    ensures k.WithOpen(p).Text() == k.Text() + more && k.WithOpen(p).Depth() == k.Depth()
  {
  }

  lemma AtomExtends(k: Stack, a: Atom)
    requires k.Valid() && AtomValid(a)
    ensures var k' := k.WithOpen(WithAtom(k.open, a));
      k'.Valid() && k'.Text() == k.Text() + AtomText(a) && k'.Depth() == k.Depth() && PatternFlag(k'.open, false)
  {
    hide AtomValid;
    var p := WithAtom(k.open, a);
    assert QuantifierText(Once) == "" && AtomText(a) + "" == AtomText(a);
    assert BranchText(p.branch) == BranchText(k.open.branch) + AtomText(a);
    assert PatternValid(p);
    WithOpenText(k, p, AtomText(a));
  }

  lemma QuantifierExtends(k: Stack, q: Quantifier)
    requires k.Valid() && PatternFlag(k.open, false) && q != Once && QuantifierValid(q)
    ensures var k' := k.WithOpen(Quantified(k.open, q));
      k'.Valid() && k'.Text() == k.Text() + QuantifierText(q) && k'.Depth() == k.Depth() && !PatternFlag(k'.open, false)
  {
    hide PatternText, PatternValid, PatternFlag, QuantifierText, QuantifierValid;
    QuantifiedText(k.open, q);
    WithOpenText(k, Quantified(k.open, q), QuantifierText(q));
  }

  lemma QuantifiedBranchText(b: Branch, q: Quantifier)
    requires b.Append? && b.last.quantifier == Once && BranchValid(b) && QuantifierValid(q)
    ensures BranchValid(b.(last := b.last.(quantifier := q)))
    ensures BranchText(b.(last := b.last.(quantifier := q))) == BranchText(b) + QuantifierText(q)
  {
  }

  lemma Associative(a: string, b: string, c: string)
    ensures a + (b + c) == a + b + c
  {
  }

  lemma PatternTextOf(p: Pattern)
    ensures PatternText(p) == (if p.One? then "" else PatternText(p.init) + "|") + BranchText(p.branch)
  {
  }

  lemma QuantifiedText(p: Pattern, q: Quantifier)
    requires PatternValid(p) && PatternFlag(p, false) && q != Once && QuantifierValid(q)
    ensures PatternValid(Quantified(p, q)) && !PatternFlag(Quantified(p, q), false)
    ensures PatternText(Quantified(p, q)) == PatternText(p) + QuantifierText(q)
  {
    assert PatternFlag(Quantified(p, q), false) == BranchFlag(Quantified(p, q).branch, false);
    QuantifiedBranchText(p.branch, q);
    hide QuantifierText, BranchText, BranchValid, PatternText, QuantifierValid;
    hide PatternFlag;
    PatternTextOf(p);
    PatternTextOf(Quantified(p, q));
    Associative(if p.One? then "" else PatternText(p.init) + "|", BranchText(p.branch), QuantifierText(q));
  }

  lemma BarExtends(k: Stack)
    requires k.Valid()
    ensures var k' := k.WithOpen(Or(k.open, Nothing));
      k'.Valid() && k'.Text() == k.Text() + "|" && k'.Depth() == k.Depth() && !PatternFlag(k'.open, false)
  {
    var p := Or(k.open, Nothing);
    assert PatternText(p) == PatternText(k.open) + "|";
    WithOpenText(k, p, "|");
  }

  lemma CloseExtends(k: Stack)
    requires k.Valid() && k.Inside?
    ensures var k' := k.outer.WithOpen(WithAtom(k.outer.open, Group(k.open)));
      k'.Valid() && k'.Text() == k.Text() + ")" && k'.Depth() + 1 == k.Depth() && PatternFlag(k'.open, false)
  {
    AtomExtends(k.outer, Group(k.open));
    assert k.outer.Text() + AtomText(Group(k.open)) == k.Text() + ")";
  }

  /** The class at the start of an accepted text, as an atom. */
  lemma ClassRead(s: string) returns (a: Atom)
    requires s != "" && s[0] == '[' && ClassLength(s).Some?
    ensures ClassLength(s).value <= |s| && AtomValid(a) && AtomText(a) == s[..ClassLength(s).value]
  {
    hide BodyLength, ClassItems;
    var negated := |s| > 1 && s[1] == '^';
    var start := if negated then 2 else 1;
    var rest := s[start..];
    BodyLengthFits(rest);
    var n := BodyLength(rest).value;
    var body := rest[..n];
    a := Class(negated, body);
    assert rest == body + "]" + rest[n + 1..];
    assert s[..start] == if negated then "[^" else "[";
    assert s == s[..start] + body + "]" + rest[n + 1..];
    assert body[0] == s[start];
  }

  /** The brace quantifier at the start of an accepted text. */
  lemma BracesRead(s: string) returns (q: Quantifier)
    requires s != "" && s[0] == '{' && BraceLength(s).Some?
    ensures BraceLength(s).value <= |s| && q.Range? && QuantifierValid(q)
              && QuantifierText(q) == s[..BraceLength(s).value]
  {
    hide DigitRun, AllDigits;
    var n := DigitRun(s[1..]);
    var low := s[1..][..n];
    var end := 1 + n;
    if s[end] == ',' {
      var m := DigitRun(s[end + 1..]);
      var high := s[end + 1..][..m];
      q := Range(low, Some(high));
      assert s[..end + m + 2] == "{" + low + "," + high + "}";
    } else {
      q := Range(low, None);
      assert s[..end + 1] == "{" + low + "}";
    }
  }

  /** One accepted turn extends the parse by what it consumed, and keeps the counter and the flag in step with it. */
  lemma MoveParses(s: string, k: Stack) returns (k': Stack)
    requires k.Valid() && s != "" && Next(s, k.Depth(), PatternFlag(k.open, false)).Some?
    ensures var m := Next(s, k.Depth(), PatternFlag(k.open, false)).value;
      && k'.Valid() && k'.Text() == k.Text() + s[..m.length]
      && k'.Depth() == m.depth && PatternFlag(k'.open, false) == m.canQuantify
  {
    hide ClassLength, BraceLength, Escapable;
    var c := s[0];
    NormalIsTheRest(c);
    assert s[..1] == [c];
    if c == '\\' {
      assert s[..2] == AtomText(Escape(s[1]));
      AtomExtends(k, Escape(s[1]));
      k' := k.WithOpen(WithAtom(k.open, Escape(s[1])));
    } else if c == '[' {
      var a := ClassRead(s);
      AtomExtends(k, a);
      k' := k.WithOpen(WithAtom(k.open, a));
    } else if c == '(' {
      k' := Inside(k, One(Nothing));
      assert k'.Text() == k.Text() + "(";
    } else if c == ')' {
      CloseExtends(k);
      k' := k.outer.WithOpen(WithAtom(k.outer.open, Group(k.open)));
    } else if c == '|' {
      BarExtends(k);
      k' := k.WithOpen(Or(k.open, Nothing));
    } else if c == '*' || c == '+' || c == '?' {
      var q := if c == '*' then Star else if c == '+' then Plus else Optional;
      QuantifierExtends(k, q);
      k' := k.WithOpen(Quantified(k.open, q));
    } else if c == '{' {
      var q := BracesRead(s);
      QuantifierExtends(k, q);
      k' := k.WithOpen(Quantified(k.open, q));
    } else {
      AtomExtends(k, Char(c));
      k' := k.WithOpen(WithAtom(k.open, Char(c)));
    }
  }

  lemma {:induction false} ScanParses(s: string, k: Stack) returns (p: Pattern)
    requires k.Valid() && Scan(s, k.Depth(), PatternFlag(k.open, false))
    ensures PatternValid(p) && PatternText(p) == k.Text() + s
    decreases |s|
  {
    hide Next;
    if s == "" {
      p := k.open;
      assert k.Text() + s == PatternText(p);
    } else {
      var k' := MoveParses(s, k);
      var m := Next(s, k.Depth(), PatternFlag(k.open, false)).value;
      p := ScanParses(s[m.length..], k');
      assert k.Text() + s[..m.length] + s[m.length..] == k.Text() + s;
    }
  }

  /** The scanner decides the grammar: one counter and one flag are all of the parse that it needs. */
  lemma ScanDecidesGrammar(s: string)
    ensures Scan(s, 0, false) <==> InGrammar(s)
  {
    hide Scan;
    if Scan(s, 0, false) {
      var p := ScanParses(s, Outermost(One(Nothing)));
      assert PatternText(p) == s;
    }
    if InGrammar(s) {
      var p: Pattern :| PatternValid(p) && PatternText(p) == s;
      PatternScans(p, "", 0, false);
      ScanUnfolds("", 0, PatternFlag(p, false));
      assert PatternText(p) + "" == s;
    }
  }

  // ---- Anchors ------------------------------------------------------------

  predicate EndsWith(s: string, suffix: string) {
    |suffix| <= |s| && s[|s| - |suffix|..] == suffix
  }

  function WithoutHat(pattern: string): string {
    if pattern != "" && pattern[0] == '^' then pattern[1..] else pattern
  }

  /** The body the scanner sees: without a leading `^`, and without a final `$` unless a backslash stands before it. */
  function Stripped(pattern: string): string {
    var body := WithoutHat(pattern);
    if EndsWith(body, "$") && !EndsWith(body, "\\$") then body[..|body| - 1] else body
  }

  method ValidatePortablePattern(pattern: string) returns (r: Option<Reason>)
    ensures r.None? <==> InGrammar(Stripped(pattern))
  {
    var body := pattern;
    if body != "" && body[0] == '^' {
      body := body[1..];
    }
    if EndsWith(body, "$") && !EndsWith(body, "\\$") {
      body := body[..|body| - 1];
    }
    ScanDecidesGrammar(body);
    r := ScanPattern(body);
  }

  /** What the profile allows: a grammatical body, optionally preceded by `^` and followed by `$`. */
  ghost predicate Promised(pattern: string) {
    exists body: string :: InGrammar(body) && Anchored(body, pattern)
  }

  predicate Anchored(body: string, pattern: string) {
    pattern == body || pattern == "^" + body || pattern == body + "$" || pattern == "^" + body + "$"
  }

  lemma MoveDoesNotEndInDollar(s: string, depth: nat, canQuantify: bool)
    requires s != "" && Next(s, depth, canQuantify).Some?
    ensures s[Next(s, depth, canQuantify).value.length - 1] != '$' && s[0] != '^'
  {
    NormalIsTheRest(s[0]);
    if s[0] == '[' {
      var a := ClassRead(s);
      assert s[ClassLength(s).value - 1] == AtomText(a)[|AtomText(a)| - 1];
    } else if s[0] == '{' {
      var q := BracesRead(s);
      assert s[BraceLength(s).value - 1] == QuantifierText(q)[|QuantifierText(q)| - 1];
    }
  }

  lemma {:induction false} ScannedDoesNotEndInDollar(s: string, depth: nat, canQuantify: bool)
    requires Scan(s, depth, canQuantify)
    ensures s != "" ==> s[|s| - 1] != '$' && s[0] != '^'
    decreases |s|
  {
    hide Next;
    if s != "" {
      var m := Next(s, depth, canQuantify).value;
      MoveDoesNotEndInDollar(s, depth, canQuantify);
      ScannedDoesNotEndInDollar(s[m.length..], m.depth, m.canQuantify);
    }
  }

  lemma GrammarHasNoAnchors(s: string)
    requires InGrammar(s)
    ensures s != "" ==> s[|s| - 1] != '$' && s[0] != '^'
  {
    ScanDecidesGrammar(s);
    ScannedDoesNotEndInDollar(s, 0, false);
  }

  lemma HatGoes(body: string, pattern: string)
    requires (body != "" ==> body[0] != '^') && Anchored(body, pattern)
    ensures WithoutHat(pattern) == body || WithoutHat(pattern) == body + "$"
    ensures EndsWith(WithoutHat(pattern), "\\$") ==> EndsWith(pattern, "\\$")
  {
    if pattern == "^" + body {
      assert pattern[1..] == body;
    } else if pattern == "^" + body + "$" {
      assert pattern[1..] == body + "$";
    }
  }

  lemma DollarGoes(body: string)
    requires body != "" ==> body[|body| - 1] != '$'
    ensures !EndsWith(body, "$") && EndsWith(body + "$", "$") && (body + "$")[..|body|] == body
  {
  }

  lemma StrippingUndoesAnchoring(body: string, pattern: string)
    requires InGrammar(body) && Anchored(body, pattern) && !EndsWith(pattern, "\\$")
    ensures Stripped(pattern) == body
  {
    GrammarHasNoAnchors(body);
    hide InGrammar, EndsWith, Anchored, WithoutHat;
    HatGoes(body, pattern);
    DollarGoes(body);
  }

  lemma StrippedIsAnchored(pattern: string)
    ensures Anchored(Stripped(pattern), pattern)
  {
  }

  /**
   * The validator accepts what the profile promises, except any pattern that ends in a backslash and a dollar: an
   * escaped backslash before the final anchor is taken for an escaped dollar, and refused.
   */
  lemma ValidatorAcceptsIff(pattern: string)
    ensures InGrammar(Stripped(pattern)) <==> Promised(pattern) && !EndsWith(pattern, "\\$")
  {
    if InGrammar(Stripped(pattern)) {
      StrippedIsAnchored(pattern);
      GrammarHasNoAnchors(Stripped(pattern));
      hide InGrammar;
      assert EndsWith(pattern, "\\$") ==> EndsWith(WithoutHat(pattern), "\\$");
    }
    if Promised(pattern) && !EndsWith(pattern, "\\$") {
      var body: string :| InGrammar(body) && Anchored(body, pattern);
      StrippingUndoesAnchoring(body, pattern);
    }
  }

  /** The exception is real: `\\$`, an escaped backslash anchored at the end, is promised and refused. */
  lemma EscapedBackslashBeforeAnchor()
    ensures Promised("\\\\$") && !InGrammar(Stripped("\\\\$"))
  {
    var p := One(Append(Nothing, Piece(Escape('\\'), Once)));
    assert Escapable('\\') by {
      assert SINGLE_ESCAPES[8] == '\\';
    }
    assert PatternValid(p) && PatternText(p) == "\\\\";
    assert InGrammar("\\\\") && Anchored("\\\\", "\\\\$");
    ValidatorAcceptsIff("\\\\$");
  }
}
