/**
 * The portable pattern scanner: one pass with a depth counter and one flag, against the grammar it stands for
 * (section 3 of RFC 9485 without category escapes and without `.`), and the stripping of outer anchors before it.
 */
module PortablePattern {
  import opened Common
  import opened Text

  const SINGLE_ESCAPES: string := "()*+-.?[\\]^{|}nrt"

  predicate Escapable(c: char) {
    c in SINGLE_ESCAPES
  }

  /** A character that stands for itself outside a class. */
  predicate Normal(c: char) {
    c !in "\\[()|*+?{.^$}]"
  }

  // ---- The grammar --------------------------------------------------------

  datatype Quantifier = Once | Star | Plus | Optional | Range(low: string, high: Option<string>)

  datatype Atom = Char(c: char) | Escape(c: char) | Class(negated: bool, body: string) | Group(inner: Pattern)

  datatype Piece = Piece(atom: Atom, quantifier: Quantifier)

  datatype Branch = Nothing | Append(init: Branch, last: Piece)

  datatype Pattern = One(branch: Branch) | Or(init: Pattern, branch: Branch)

  function QuantifierText(q: Quantifier): string {
    match q
    case Once => ""
    case Star => "*"
    case Plus => "+"
    case Optional => "?"
    case Range(low, None) => "{" + low + "}"
    case Range(low, Some(high)) => "{" + low + "," + high + "}"
  }

  function AtomText(a: Atom): string {
    match a
    case Char(c) => [c]
    case Escape(c) => ['\\', c]
    case Class(negated, body) => (if negated then "[^" else "[") + body + "]"
    case Group(inner) => "(" + PatternText(inner) + ")"
  }

  function PieceText(p: Piece): string {
    AtomText(p.atom) + QuantifierText(p.quantifier)
  }

  function BranchText(b: Branch): string {
    match b
    case Nothing => ""
    case Append(init, last) => BranchText(init) + PieceText(last)
  }

  function PatternText(p: Pattern): string {
    match p
    case One(branch) => BranchText(branch)
    case Or(init, branch) => PatternText(init) + "|" + BranchText(branch)
  }

  predicate QuantifierValid(q: Quantifier) {
    q.Range? ==> q.low != "" && AllDigits(q.low) && (q.high.Some? ==> AllDigits(q.high.value))
  }

  /** Class members: escapes, or any character but a bracket. */
  predicate ClassItems(body: string) {
    body == "" ||
    (if body[0] == '\\' then |body| >= 2 && Escapable(body[1]) && ClassItems(body[2..])
     else body[0] != '[' && body[0] != ']' && ClassItems(body[1..]))
  }

  predicate AtomValid(a: Atom) {
    match a
    case Char(c) => Normal(c)
    case Escape(c) => Escapable(c)
    case Class(negated, body) => body != "" && ClassItems(body) && (!negated ==> body[0] != '^')
    case Group(inner) => PatternValid(inner)
  }

  predicate BranchValid(b: Branch) {
    b.Append? ==> BranchValid(b.init) && AtomValid(b.last.atom) && QuantifierValid(b.last.quantifier)
  }

  predicate PatternValid(p: Pattern) {
    BranchValid(p.branch) && (p.Or? ==> PatternValid(p.init))
  }

  ghost predicate InGrammar(s: string) {
    exists p: Pattern :: PatternValid(p) && PatternText(p) == s
  }

  // ---- The scan -----------------------------------------------------------

  function Longer(n: nat, length: Option<nat>): Option<nat> {
    if length.Some? then Some(n + length.value) else None
  }

  /** The length of a class body that ends at a `]`, if its members are allowed. */
  function BodyLength(s: string): Option<nat>
    decreases |s|
  {
    if s == "" then None
    else if s[0] == ']' then Some(0)
    else if s[0] == '\\' then if |s| >= 2 && Escapable(s[1]) then Longer(2, BodyLength(s[2..])) else None
    else if s[0] == '[' then None
    else Longer(1, BodyLength(s[1..]))
  }

  /** The length of the class at the start of `s`, brackets included. */
  function ClassLength(s: string): (n: Option<nat>)
    requires s != "" && s[0] == '['
  {
    var start := if |s| > 1 && s[1] == '^' then 2 else 1;
    var body := BodyLength(s[start..]);
    if body == Some(0) then None else Longer(start + 1, body)
  }

  function DigitRun(s: string): (n: nat)
    ensures n <= |s| && AllDigits(s[..n]) && (n < |s| ==> !IsDigit(s[n]))
  {
    if s == "" || !IsDigit(s[0]) then 0
    else
      var n := DigitRun(s[1..]);
      assert s[..n + 1] == [s[0]] + s[1..][..n];
      n + 1
  }

  /** The length of the brace quantifier at the start of `s`. */
  function BraceLength(s: string): Option<nat>
    requires s != "" && s[0] == '{'
  {
    var low := DigitRun(s[1..]);
    var end := 1 + low;
    if low == 0 then None
    else if end < |s| && s[end] == ',' then
      var close := end + 1 + DigitRun(s[end + 1..]);
      if close < |s| && s[close] == '}' then Some(close + 1) else None
    else if end < |s| && s[end] == '}' then Some(end + 1)
    else None
  }

  lemma {:induction false} BodyLengthFits(s: string)
    ensures BodyLength(s).Some? ==>
              BodyLength(s).value < |s| && s[BodyLength(s).value] == ']' && ClassItems(s[..BodyLength(s).value])
    decreases |s|
  {
    if s != "" && s[0] == '\\' && |s| >= 2 {
      BodyLengthFits(s[2..]);
      if BodyLength(s).Some? {
        var n := BodyLength(s).value;
        assert s[..n][2..] == s[2..][..n - 2];
      }
    } else if s != "" && s[0] != ']' && s[0] != '[' {
      BodyLengthFits(s[1..]);
      if BodyLength(s).Some? {
        var n := BodyLength(s).value;
        assert s[..n][1..] == s[1..][..n - 1];
      }
    }
  }

  /** What one turn of the scanner consumes, and the depth and flag it leaves. */
  datatype Move = Move(length: nat, depth: nat, canQuantify: bool)

  function Next(s: string, depth: nat, canQuantify: bool): (m: Option<Move>)
    requires s != ""
    ensures m.Some? ==> 1 <= m.value.length <= |s|
  {
    var c := s[0];
    if c == '\\' then if |s| >= 2 && Escapable(s[1]) then Some(Move(2, depth, true)) else None
    else if c == '[' then
      BodyLengthFits(s[1..]);
      BodyLengthFits(if |s| > 1 then s[2..] else "");
      if ClassLength(s).Some? then Some(Move(ClassLength(s).value, depth, true)) else None
    else if c == '(' then Some(Move(1, depth + 1, false))
    else if c == ')' then if depth > 0 then Some(Move(1, depth - 1, true)) else None
    else if c == '|' then Some(Move(1, depth, false))
    else if c == '*' || c == '+' || c == '?' then if canQuantify then Some(Move(1, depth, false)) else None
    else if c == '{' then
      if canQuantify && BraceLength(s).Some? then Some(Move(BraceLength(s).value, depth, false)) else None
    else if Normal(c) then Some(Move(1, depth, true))
    else None
  }

  /** The scanner's verdict on the rest of a pattern, given only how deep it is and whether an operand precedes. */
  function Scan(s: string, depth: nat, canQuantify: bool): bool
    decreases |s|
  {
    if s == "" then depth == 0
    else
      var m := Next(s, depth, canQuantify);
      m.Some? && Scan(s[m.value.length..], m.value.depth, m.value.canQuantify)
  }

  lemma ScanUnfolds(s: string, depth: nat, canQuantify: bool)
    ensures Scan(s, depth, canQuantify) <==>
              if s == "" then depth == 0
              else
                var m := Next(s, depth, canQuantify);
                m.Some? && Scan(s[m.value.length..], m.value.depth, m.value.canQuantify)
  {
  }

  /** A lazy or possessive mark after a quantifier, or a modifier after `(`, is a quantifier without operand. */
  lemma MarkStops(s: string, depth: nat)
    requires s != "" && (s[0] == '?' || s[0] == '+')
    ensures !Scan(s, depth, false)
  {
  }

  lemma NormalIsTheRest(c: char)
    ensures Normal(c) <==>
              && c != '\\' && c != '[' && c != '(' && c != ')' && c != '|' && c != '*' && c != '+' && c != '?'
              && c != '{' && c != '.' && c != '^' && c != '$' && c != '}' && c != ']'
  {
  }

  // ---- The loop -----------------------------------------------------------

  datatype Reason =
    | BadEscape | EmptyClass | NestedClass | UnterminatedClass | GroupModifiers | Unbalanced
    | NoOperand | LazyOrPossessive | MalformedQuantifier | Dot | InnerAnchor | Unescaped

  method ScanClass(chars: string, start: nat) returns (r: Result<nat, Reason>)
    requires start < |chars| && chars[start] == '['
    ensures r.Ok? <==> ClassLength(chars[start..]).Some?
    ensures r.Ok? ==> start < r.value == start + ClassLength(chars[start..]).value <= |chars|
  {
    hide BodyLength;
    var i := start + 1;
    if i < |chars| && chars[i] == '^' {
      i := i + 1;
    }
    assert chars[start..][i - start..] == chars[i..];
    BodyLengthFits(chars[i..]);
    EmptyBody(chars[i..]);
    if i < |chars| && chars[i] == ']' {
      return Err(EmptyClass);
    }
    r := ScanBody(chars, i);
    if r.Ok? {
      r := Ok(r.value + 1);
    }
  }

  lemma EmptyBody(s: string)
    ensures BodyLength(s) == Some(0) <==> s != "" && s[0] == ']'
  {
  }

  /** The members of a class, up to its closing bracket. */
  method ScanBody(chars: string, start: nat) returns (r: Result<nat, Reason>)
    requires start <= |chars|
    ensures r.Ok? <==> BodyLength(chars[start..]).Some?
    ensures r.Ok? ==> r.value == start + BodyLength(chars[start..]).value
  {
    hide Escapable;
    var i := start;
    while i < |chars| && chars[i] != ']'
      invariant start <= i <= |chars|
      invariant BodyLength(chars[start..]) == Longer(i - start, BodyLength(chars[i..]))
    {
      ghost var here := chars[i..];
      if chars[i] == '\\' {
        if i + 1 >= |chars| || !Escapable(chars[i + 1]) {
          return Err(BadEscape);
        }
        assert here[2..] == chars[i + 2..];
        i := i + 2;
      } else if chars[i] == '[' {
        return Err(NestedClass);
      } else {
        assert here[1..] == chars[i + 1..];
        i := i + 1;
      }
    }
    if i >= |chars| {
      assert chars[i..] == "";
      return Err(UnterminatedClass);
    }
    r := Ok(i);
  }

  method SkipDigits(chars: string, start: nat) returns (end: nat)
    requires start <= |chars|
    ensures end == start + DigitRun(chars[start..]) <= |chars|
  {
    end := start;
    while end < |chars| && IsDigit(chars[end])
      invariant start <= end <= |chars|
      invariant DigitRun(chars[start..]) == end - start + DigitRun(chars[end..])
    {
      assert chars[end..][1..] == chars[end + 1..];
      end := end + 1;
    }
  }

  method ScanBraces(chars: string, start: nat) returns (r: Result<nat, Reason>)
    requires start < |chars| && chars[start] == '{'
    ensures r.Ok? <==> BraceLength(chars[start..]).Some?
    ensures r.Ok? ==> start < r.value == start + BraceLength(chars[start..]).value <= |chars|
  {
    hide DigitRun, AllDigits;
    ghost var s := chars[start..];
    assert s[1..] == chars[start + 1..];
    var j := SkipDigits(chars, start + 1);
    if j == start + 1 {
      return Err(MalformedQuantifier);
    }
    if j < |chars| && chars[j] == ',' {
      assert s[j - start + 1..] == chars[j + 1..];
      j := SkipDigits(chars, j + 1);
    }
    if j >= |chars| || chars[j] != '}' {
      return Err(MalformedQuantifier);
    }
    r := Ok(j + 1);
  }

  method ScanPattern(chars: string) returns (r: Option<Reason>)
    ensures r.None? <==> Scan(chars, 0, false)
  {
    hide Escapable, Normal, ClassLength, BraceLength, BodyLength, Scan;
    var i, depth: nat, canQuantify := 0, 0, false;
    assert chars[0..] == chars;
    while i < |chars|
      invariant 0 <= i <= |chars|
      invariant Scan(chars[i..], depth, canQuantify) <==> Scan(chars, 0, false)
      decreases |chars| - i
    {
      var move := Turn(chars, i, depth, canQuantify);
      if move.Err? {
        return Some(move.error);
      }
      assert chars[i..][move.value.length..] == chars[i + move.value.length..];
      i, depth, canQuantify := i + move.value.length, move.value.depth, move.value.canQuantify;
    }
    ScanUnfolds(chars[i..], depth, canQuantify);
    if depth != 0 {
      return Some(Unbalanced);
    }
    r := None;
  }

  /** One turn of the loop, with the lookaheads of the original. */
  method Turn(chars: string, i: nat, depth: nat, canQuantify: bool) returns (r: Result<Move, Reason>)
    requires i < |chars|
    ensures r.Ok? ==> Next(chars[i..], depth, canQuantify) == Some(r.value)
    ensures var rest := chars[i..];
      if r.Ok? then
        Scan(rest, depth, canQuantify) <==> Scan(rest[r.value.length..], r.value.depth, r.value.canQuantify)
      else !Scan(rest, depth, canQuantify)
  {
    hide Escapable, Normal, ClassLength, BraceLength, BodyLength, Scan;
    var c := chars[i];
    ghost var rest := chars[i..];
    NormalIsTheRest(c);
    ScanUnfolds(rest, depth, canQuantify);
    if c == '\\' {
      if i + 1 >= |chars| || !Escapable(chars[i + 1]) {
        return Err(BadEscape);
      }
      return Ok(Move(2, depth, true));
    } else if c == '[' {
      var end := ScanClass(chars, i);
      return if end.Err? then Err(end.error) else Ok(Move(end.value - i, depth, true));
    } else if c == '(' {
      if i + 1 < |chars| && chars[i + 1] == '?' {
        MarkStops(rest[1..], depth + 1);
        return Err(GroupModifiers);
      }
      return Ok(Move(1, depth + 1, false));
    } else if c == ')' {
      return if depth == 0 then Err(Unbalanced) else Ok(Move(1, depth - 1, true));
    } else if c == '|' {
      return Ok(Move(1, depth, false));
    } else if c == '*' || c == '+' || c == '?' || c == '{' {
      if !canQuantify {
        return Err(NoOperand);
      }
      var length := 1;
      if c == '{' {
        var end := ScanBraces(chars, i);
        if end.Err? {
          return Err(end.error);
        }
        length := end.value - i;
      }
      if i + length < |chars| && (chars[i + length] == '?' || chars[i + length] == '+') {
        MarkStops(rest[length..], depth);
        return Err(LazyOrPossessive);
      }
      return Ok(Move(length, depth, false));
    } else if c == '.' {
      return Err(Dot);
    } else if c == '^' || c == '$' {
      return Err(InnerAnchor);
    } else if c == '}' || c == ']' {
      return Err(Unescaped);
    }
    r := Ok(Move(1, depth, true));
  }
}
