/**
 PostgreSQL type syntax: normalisation of names, the parser, and the printer's inverse.

 Case, whitespace and digits are the ASCII ones.
 */
module TypeSyntax {
  import opened Options
  import opened Models
  import opened Strings
  import opened TypePolicy
  import opened TypeValues

  // ---------- ASCII text ----------

  predicate IsSpace(c: char) {
    c == ' ' || '\t' <= c <= '\r' || 0x1c <= c as int <= 0x1f
  }

  function LowerChar(c: char): char {
    if 'A' <= c <= 'Z' then 'a' + (c - 'A') else c
  }

  function Lower(s: string): string {
    seq(|s|, i requires 0 <= i < |s| => LowerChar(s[i]))
  }

  function StripLeft(s: string): string {
    if s != [] && IsSpace(s[0]) then StripLeft(s[1..]) else s
  }

  function StripRight(s: string): string {
    if s != [] && IsSpace(s[|s| - 1]) then StripRight(s[..|s| - 1]) else s
  }

  function Strip(s: string): string {
    StripRight(StripLeft(s))
  }

  function FirstWord(s: string): (w: string)
    ensures |w| <= |s| && w == s[..|w|]
    ensures |w| < |s| ==> IsSpace(s[|w|])
    ensures forall c :: c in w ==> !IsSpace(c)
  {
    if s == [] || IsSpace(s[0]) then [] else [s[0]] + FirstWord(s[1..])
  }

  /** `s.split()`: the maximal runs without whitespace. */
  function Words(s: string): seq<string> {
    if s == [] then []
    else if IsSpace(s[0]) then Words(s[1..])
    else [FirstWord(s)] + Words(s[|FirstWord(s)|..])
  }

  function Squeeze(name: string): string {
    JoinWith(Words(Lower(Strip(name))), " ")
  }

  /** The words of the canonical name behind an alias; any other name stands for itself. */
  function AliasWords(name: string): seq<string> {
    if name == "bool" then ["boolean"]
    else if name == "decimal" then ["numeric"]
    else if name == "float8" then ["double", "precision"]
    else if name == "int2" then ["smallint"]
    else if name == "int4" then ["integer"]
    else if name == "int8" then ["bigint"]
    else if name == "timestamp" then ["timestamp", "without", "time", "zone"]
    else if name == "timestamptz" then ["timestamp", "with", "time", "zone"]
    else if name == "varchar" then ["character", "varying"]
    else [name]
  }

  function Alias(name: string): string {
    JoinWith(AliasWords(name), " ")
  }

  function NormalizeName(name: string): string {
    Alias(Squeeze(name))
  }

  // ---------- integers ----------

  predicate IsDigit(c: char) { '0' <= c <= '9' }

  /** Digits, with single underscores allowed between digits. */
  predicate DigitRun(s: string) {
    s != [] && IsDigit(s[0]) && IsDigit(s[|s| - 1]) &&
    forall i :: 0 <= i < |s| ==> IsDigit(s[i]) || (s[i] == '_' && i > 0 && IsDigit(s[i - 1]))
  }

  function DigitsValue(s: string): nat {
    if s == [] then 0 else
    var n := |s| - 1;
    if IsDigit(s[n]) then 10 * DigitsValue(s[..n]) + (s[n] - '0') as int else DigitsValue(s[..n])
  }

  /** `int(s)`; None where Python raises. */
  function ParseInt(s: string): Option<int> {
    var t := Strip(s);
    var signed := t != [] && (t[0] == '-' || t[0] == '+');
    var digits := if signed then t[1..] else t;
    if !DigitRun(digits) then None
    else
      var value: int := DigitsValue(digits);
      Some(if signed && t[0] == '-' then -value else value)
  }

  // ---------- the parser ----------

  predicate ParenFree(s: string) {
    '(' !in s && ')' !in s
  }

  datatype Matched = Matched(name: string, arguments: Option<string>)

  function IndexOf(s: string, c: char): (i: nat)
    requires c in s
    ensures i < |s| && s[i] == c && c !in s[..i]
  {
    if s[0] == c then 0 else 1 + IndexOf(s[1..], c)
  }

  /** A nonempty name without parentheses, optionally followed by one parenthesised argument text. */
  function MatchType(s: string): Option<Matched> {
    if '(' !in s then
      if s != [] && ')' !in s then Some(Matched(s, None)) else None
    else
      var i := IndexOf(s, '(');
      if 0 < i < |s| - 1 && s[|s| - 1] == ')' && ParenFree(s[..i]) && ParenFree(s[i + 1..|s| - 1])
      then Some(Matched(s[..i], Some(s[i + 1..|s| - 1]))) else None
  }

  function ParseInts(parts: seq<string>): Option<seq<int>> {
    if parts == [] then Some([])
    else
      var first, rest := ParseInt(parts[0]), ParseInts(parts[1..]);
      if first.Some? && rest.Some? then Some([first.value] + rest.value) else None
  }

  /** Modifiers are accepted only on the character, bit and numeric types. */
  function WithModifiers(name: string, values: seq<int>): Result<CanonicalType, string> {
    if LengthTyped(name) && |values| == 1 then Ok(CanonicalType(name, Some(values[0]), None, None))
    else if name == "numeric" && |values| == 2 then Ok(CanonicalType(name, None, Some(values[0]), Some(values[1])))
    else if name == "numeric" && |values| == 1 then Ok(CanonicalType(name, None, Some(values[0]), None))
    else Err("unsupported PostgreSQL type modifiers")
  }

  function Interpret(m: Matched): Result<CanonicalType, string> {
    var name := NormalizeName(m.name);
    if m.arguments.None? then Ok(CanonicalType(name, None, None, None))
    else
      var values := ParseInts(SplitOn(m.arguments.value, ','));
      if values.None? then Err("invalid literal") else WithModifiers(name, values.value)
  }

  function ParsePostgresType(spec: string): Result<CanonicalType, string> {
    match MatchType(Lower(Strip(spec)))
    case None => Err("invalid PostgreSQL type")
    case Some(m) => Interpret(m)
  }

  function Render(t: CanonicalType): string {
    if t.length.Some? then t.name + "(" + IntText(t.length.value) + ")"
    else if t.precision.Some? && t.scale.Some? then
      t.name + "(" + (IntText(t.precision.value) + "," + IntText(t.scale.value)) + ")"
    else if t.precision.Some? then t.name + "(" + IntText(t.precision.value) + ")"
    else t.name
  }

  function CanonicalizePostgresType(dataType: string, udtName: string, length: Option<int>, precision: Option<int>,
                                    scale: Option<int>): CanonicalType {
    var name := NormalizeName(if dataType != "USER-DEFINED" then dataType else udtName);
    if LengthTyped(name) then CanonicalType(name, length, None, None)
    else if name == "numeric" then CanonicalType(name, None, precision, scale)
    else CanonicalType(name, None, None, None)
  }

  // ---------- normalisation is idempotent ----------

  predicate Word(w: string) {
    w != [] && forall c :: c in w ==> !IsSpace(c)
  }

  predicate AllWords(ws: seq<string>) {
    forall w :: w in ws ==> Word(w)
  }

  lemma {:induction false} WordsAreWords(s: string)
    ensures AllWords(Words(s))
    ensures forall w, c :: w in Words(s) && c in w ==> c in s
    decreases |s|
  {
    if s != [] {
      if IsSpace(s[0]) {
        WordsAreWords(s[1..]);
      } else {
        WordsAreWords(s[|FirstWord(s)|..]);
      }
    }
  }

  lemma {:induction false} FirstWordOf(w: string, rest: string)
    requires Word(w) && (rest != [] ==> IsSpace(rest[0]))
    ensures FirstWord(w + rest) == w
    decreases |w|
  {
    var s := w + rest;
    assert s[1..] == w[1..] + rest;
    assert w[0] in w && s[0] == w[0];
    if |w| > 1 {
      assert Word(w[1..]);
      FirstWordOf(w[1..], rest);
    } else {
      assert w[1..] + rest == rest;
      assert FirstWord(rest) == [];
    }
    assert w == [w[0]] + w[1..];
  }

  lemma {:induction false} WordsOfJoin(ws: seq<string>)
    requires AllWords(ws)
    ensures Words(JoinWith(ws, " ")) == ws
    decreases |ws|
  {
    if ws != [] {
      var w, tail := ws[0], JoinWith(ws[1..], " ");
      assert Word(w) && w[0] in w;
      WordsOfJoin(ws[1..]);
      if |ws| == 1 {
        assert w + [] == w;
        FirstWordOf(w, []);
        assert w[|w|..] == [];
      } else {
        var rest := " " + tail;
        assert JoinWith(ws, " ") == w + rest;
        FirstWordOf(w, rest);
        assert (w + rest)[|w|..] == rest && rest[1..] == tail;
      }
      assert ws == [w] + ws[1..];
    }
  }

  lemma Trimmed(s: string)
    requires s != [] ==> !IsSpace(s[0]) && !IsSpace(s[|s| - 1])
    ensures Strip(s) == s
  {
  }

  lemma {:induction false} JoinEnds(ws: seq<string>)
    requires AllWords(ws) && ws != []
    ensures var s := JoinWith(ws, " ");
      s != [] && !IsSpace(s[0]) && !IsSpace(s[|s| - 1])
    decreases |ws|
  {
    var w := ws[0];
    assert Word(w) && w[0] in w && w[|w| - 1] in w;
    if |ws| > 1 {
      JoinEnds(ws[1..]);
    }
  }

  predicate IsLower(s: string) {
    forall c :: c in s ==> LowerChar(c) == c
  }

  lemma LowerFixed(s: string)
    ensures IsLower(s) <==> Lower(s) == s
    ensures IsLower(Lower(s))
  {
    if Lower(s) == s {
      forall c | c in s ensures LowerChar(c) == c {
        var i :| 0 <= i < |s| && s[i] == c;
        assert Lower(s)[i] == s[i];
      }
    }
    forall c | c in Lower(s) ensures LowerChar(c) == c {
      var i :| 0 <= i < |s| && Lower(s)[i] == c;
    }
  }

  lemma {:induction false} JoinChars(ws: seq<string>)
    ensures forall c :: c in JoinWith(ws, " ") ==> c == ' ' || exists w :: w in ws && c in w
    decreases |ws|
  {
    if |ws| > 1 {
      JoinChars(ws[1..]);
      forall c | c in JoinWith(ws, " ") ensures c == ' ' || exists w :: w in ws && c in w {
        if c in JoinWith(ws[1..], " ") && c != ' ' {
          var w :| w in ws[1..] && c in w;
          assert w in ws;
        }
      }
    }
  }

  /** Words in lower case, joined by single spaces, are left alone. */
  lemma JoinedIsSqueezed(ws: seq<string>)
    requires AllWords(ws) && forall w :: w in ws ==> IsLower(w)
    ensures var s := JoinWith(ws, " ");
      Squeeze(s) == s && Strip(s) == s && Lower(s) == s
  {
    var s := JoinWith(ws, " ");
    if ws != [] { JoinEnds(ws); }
    Trimmed(s);
    JoinChars(ws);
    assert IsLower(s);
    LowerFixed(s);
    WordsOfJoin(ws);
  }

  lemma SqueezeWords(name: string)
    ensures var ws := Words(Lower(Strip(name)));
      AllWords(ws) && forall w :: w in ws ==> IsLower(w)
  {
    var t := Lower(Strip(name));
    WordsAreWords(t);
    LowerFixed(Strip(name));
  }

  lemma SqueezeIdempotent(name: string)
    ensures var s := Squeeze(name);
      Squeeze(s) == s && Strip(s) == s && Lower(s) == s
  {
    SqueezeWords(name);
    JoinedIsSqueezed(Words(Lower(Strip(name))));
  }

  /** A name the parser leaves as it is. */
  predicate NormalName(name: string) {
    Squeeze(name) == name && Strip(name) == name && Lower(name) == name && Alias(name) == name
  }

  lemma JoinTwo(a: string, b: string)
    ensures JoinWith([a, b], " ") == a + " " + b
  {
    assert [a, b][1..] == [b];
  }

  lemma JoinFour(a: string, b: string, c: string, d: string)
    ensures JoinWith([a, b, c, d], " ") == a + " " + (b + " " + (c + " " + d))
  {
    JoinTwo(c, d);
    assert [a, b, c, d][1..] == [b, c, d] && [b, c, d][1..] == [c, d];
  }

  /** An alias target: words in lower case joined by single spaces, and not an alias itself. */
  predicate AliasTarget(ws: seq<string>) {
    var name := JoinWith(ws, " ");
    AllWords(ws) && (forall w :: w in ws ==> IsLower(w)) && Alias(name) == name && ParenFree(name) && name != ""
  }

  /** No alias has this length, or this length and first letter. */
  lemma NoAlias(name: string)
    requires |name| in {4, 6, 7, 9, 11} ==>
      (|name| == 7 && name[0] != 'd' && name[0] != 'v') || (|name| == 6 && name[0] != 'f')
    ensures AliasWords(name) == [name] && Alias(name) == name
  {
  }

  predicate Letters(w: string) {
    w != "" && forall c :: c in w ==> 'a' <= c <= 'z'
  }

  lemma LettersAreWords(w: string)
    requires Letters(w)
    ensures Word(w) && IsLower(w) && ParenFree(w)
  {
  }

  lemma OneWordTarget(w: string)
    requires Letters(w) && |w| in {6, 7, 8} && (|w| == 7 ==> w[0] != 'd' && w[0] != 'v') && (|w| == 6 ==> w[0] != 'f')
    ensures AliasTarget([w])
  {
    LettersAreWords(w);
    NoAlias(w);
    assert JoinWith([w], " ") == w;
  }

  lemma TwoWordTarget(v: string, w: string)
    requires Letters(v) && Letters(w) && |v| + |w| > 10
    ensures AliasTarget([v, w])
  {
    LettersAreWords(v);
    LettersAreWords(w);
    JoinTwo(v, w);
    NoAlias(v + " " + w);
  }

  lemma FourWordTarget(a: string, b: string, c: string, d: string)
    requires Letters(a) && Letters(b) && Letters(c) && Letters(d) && |a| + |b| + |c| + |d| > 8
    ensures AliasTarget([a, b, c, d])
  {
    LettersAreWords(a);
    LettersAreWords(b);
    LettersAreWords(c);
    LettersAreWords(d);
    JoinFour(a, b, c, d);
    NoAlias(a + " " + (b + " " + (c + " " + d)));
  }

  /** How the alias table is laid out: one, two or four words. */
  lemma AliasTable(name: string)
    ensures var ws := AliasWords(name);
      ws == [name] ||
      (|ws| == 1 && Letters(ws[0]) && |ws[0]| in {6, 7, 8} &&
       (|ws[0]| == 7 ==> ws[0][0] in {'b', 'n', 'i'}) && (|ws[0]| == 6 ==> ws[0][0] == 'b')) ||
      (|ws| == 2 && Letters(ws[0]) && Letters(ws[1]) && |ws[0]| + |ws[1]| > 10) ||
      (|ws| == 4 && Letters(ws[0]) && Letters(ws[1]) && Letters(ws[2]) && Letters(ws[3]) && |ws[0]| == 9)
  {
  }

  lemma AliasIsTarget(name: string)
    ensures AliasWords(name) == [name] || AliasTarget(AliasWords(name))
  {
    var ws := AliasWords(name);
    AliasTable(name);
    if ws == [name] {
    } else if |ws| == 1 {
      OneWordTarget(ws[0]);
    } else if |ws| == 2 {
      TwoWordTarget(ws[0], ws[1]);
    } else {
      FourWordTarget(ws[0], ws[1], ws[2], ws[3]);
    }
  }

  /** Normalising a second time changes nothing. */
  lemma NormalizeIdempotent(name: string)
    ensures NormalName(NormalizeName(name))
    ensures NormalizeName(NormalizeName(name)) == NormalizeName(name)
  {
    var s := Squeeze(name);
    SqueezeIdempotent(name);
    AliasIsTarget(s);
    if AliasWords(s) != [s] {
      JoinedIsSqueezed(AliasWords(s));
    }
  }

  // ---------- numbers round trip ----------

  lemma {:induction false} NatTextExact(n: nat)
    ensures forall c :: c in NatText(n) ==> IsDigit(c)
    ensures DigitsValue(NatText(n)) == n
  {
    var s := NatText(n);
    if n < 10 {
      assert s[..0] == [];
      assert DigitsValue(s[..0]) == 0;
    } else {
      NatTextExact(n / 10);
      assert s[..|s| - 1] == NatText(n / 10);
    }
  }

  lemma NatTextRun(n: nat)
    ensures DigitRun(NatText(n)) && DigitsValue(NatText(n)) == n
    ensures !IsSpace(NatText(n)[0]) && !IsSpace(NatText(n)[|NatText(n)| - 1])
    ensures NatText(n)[0] != '-' && NatText(n)[0] != '+'
  {
    var s := NatText(n);
    NatTextExact(n);
    assert forall i :: 0 <= i < |s| ==> s[i] in s;
  }

  lemma ParseIntOfText(n: int)
    ensures ParseInt(IntText(n)) == Some(n)
  {
    var digits, s := NatText(if n < 0 then -n else n), IntText(n);
    NatTextRun(if n < 0 then -n else n);
    assert s[|s| - 1] == digits[|digits| - 1];
    Trimmed(s);
    if n < 0 {
      assert s[1..] == digits;
    }
  }

  // ---------- printer and parser ----------

  /** The shape of types the parser produces. */
  predicate Renderable(t: CanonicalType) {
    NormalName(t.name) && t.name != "" && ParenFree(t.name) && Canonical(t)
  }

  lemma NormalEnds(name: string)
    requires NormalName(name) && name != ""
    ensures !IsSpace(name[0]) && !IsSpace(name[|name| - 1])
  {
    SqueezeWords(name);
    JoinEnds(Words(Lower(Strip(name))));
  }

  lemma RenderedFixed(name: string, args: string)
    requires NormalName(name) && name != "" && IsLower(args)
    ensures var s := name + "(" + args + ")";
      Lower(Strip(s)) == s
  {
    var s := name + "(" + args + ")";
    NormalEnds(name);
    Trimmed(s);
    LowerFixed(name);
    LowerFixed(s);
  }

  lemma OpeningParen(name: string, rest: string)
    requires ParenFree(name)
    ensures '(' in name + "(" + rest && IndexOf(name + "(" + rest, '(') == |name|
  {
    var s := name + "(" + rest;
    assert s[|name|] == '(' && s[..|name|] == name;
    assert forall j :: 0 <= j < |name| ==> s[j] == name[j] && name[j] in name;
  }

  /** Parsing a printed type with argument text `args` gets back to the name and the arguments. */
  lemma MatchRendered(name: string, args: string)
    requires NormalName(name) && name != "" && ParenFree(name)
    requires ParenFree(args) && IsLower(args)
    ensures var s := name + "(" + args + ")";
      MatchType(Lower(Strip(s))) == Some(Matched(name, Some(args)))
  {
    RenderedFixed(name, args);
    MatchShapeOf(name, args);
  }

  lemma MatchShapeOf(name: string, args: string)
    requires name != "" && ParenFree(name) && ParenFree(args)
    ensures MatchType(name + "(" + args + ")") == Some(Matched(name, Some(args)))
  {
    var s := name + "(" + args + ")";
    OpeningParen(name, args + ")");
    assert s == name + "(" + (args + ")");
    assert s[..|name|] == name && s[|name| + 1..|s| - 1] == args;
  }

  lemma ArgumentText(n: int)
    ensures ParenFree(IntText(n)) && IsLower(IntText(n)) && ',' !in IntText(n)
  {
    NatTextExact(if n < 0 then -n else n);
    assert forall c :: c in IntText(n) ==> IsDigit(c) || c == '-';
  }

  lemma ParseIntsOne(part: string, n: int)
    requires ParseInt(part) == Some(n)
    ensures ParseInts([part]) == Some([n])
  {
    assert [part][1..] == [];
    assert ParseInts([part][1..]) == Some([]);
    assert [n] + [] == [n];
  }

  lemma ParseIntsTwo(first: string, second: string, m: int, n: int)
    requires ParseInt(first) == Some(m) && ParseInt(second) == Some(n)
    ensures ParseInts([first, second]) == Some([m, n])
  {
    ParseIntsOne(second, n);
    assert [first, second][1..] == [second];
    assert [m] + [n] == [m, n];
  }

  lemma InterpretOne(name: string, n: int)
    requires NormalizeName(name) == name
    ensures Interpret(Matched(name, Some(IntText(n)))) == WithModifiers(name, [n])
  {
    ArgumentText(n);
    ParseIntOfText(n);
    SplitOnSingle(IntText(n), ',');
    ParseIntsOne(IntText(n), n);
  }

  lemma InterpretTwo(name: string, m: int, n: int)
    requires NormalizeName(name) == name
    ensures Interpret(Matched(name, Some(IntText(m) + "," + IntText(n)))) == WithModifiers(name, [m, n])
  {
    ArgumentText(m);
    ArgumentText(n);
    ParseIntOfText(m);
    ParseIntOfText(n);
    SplitOnPair(IntText(m), IntText(n), ',');
    ParseIntsTwo(IntText(m), IntText(n), m, n);
  }

  lemma PlainText(a: string, b: string)
    requires ParenFree(a) && IsLower(a) && ParenFree(b) && IsLower(b)
    ensures ParenFree(a + "," + b) && IsLower(a + "," + b)
  {
  }

  lemma MatchPlain(name: string)
    requires NormalName(name) && name != "" && ParenFree(name)
    ensures MatchType(Lower(Strip(name))) == Some(Matched(name, None))
    ensures NormalizeName(name) == name
  {
  }

  lemma ParseMatched(spec: string, m: Matched)
    requires MatchType(Lower(Strip(spec))) == Some(m)
    ensures ParsePostgresType(spec) == Interpret(m)
  {
  }

  /** Parsing a printed name and argument text interprets them. */
  lemma RenderedThenParse(name: string, args: string)
    requires NormalName(name) && name != "" && ParenFree(name)
    requires ParenFree(args) && IsLower(args)
    ensures ParsePostgresType(name + "(" + args + ")") == Interpret(Matched(name, Some(args)))
    ensures NormalizeName(name) == name
  {
    MatchRendered(name, args);
    MatchPlain(name);
    ParseMatched(name + "(" + args + ")", Matched(name, Some(args)));
  }

  lemma RenderOneThenParse(name: string, n: int)
    requires NormalName(name) && name != "" && ParenFree(name)
    ensures ParsePostgresType(name + "(" + IntText(n) + ")") == WithModifiers(name, [n])
  {
    ArgumentText(n);
    RenderedThenParse(name, IntText(n));
    InterpretOne(name, n);
  }

  lemma RenderTwoThenParse(name: string, m: int, n: int)
    requires NormalName(name) && name != "" && ParenFree(name)
    ensures ParsePostgresType(name + "(" + (IntText(m) + "," + IntText(n)) + ")") == WithModifiers(name, [m, n])
  {
    ArgumentText(m);
    ArgumentText(n);
    PlainText(IntText(m), IntText(n));
    RenderedThenParse(name, IntText(m) + "," + IntText(n));
    InterpretTwo(name, m, n);
  }

  /** Printing a canonical type and parsing it again gives the type back. */
  lemma RenderThenParse(t: CanonicalType)
    requires Renderable(t)
    ensures ParsePostgresType(Render(t)) == Ok(t)
  {
    if t.length.Some? {
      RenderOneThenParse(t.name, t.length.value);
    } else if t.precision.Some? && t.scale.Some? {
      RenderTwoThenParse(t.name, t.precision.value, t.scale.value);
    } else if t.precision.Some? {
      RenderOneThenParse(t.name, t.precision.value);
    } else {
      MatchPlain(t.name);
      ParseMatched(t.name, Matched(t.name, None));
    }
  }

  lemma {:induction false} StripRightFacts(s: string)
    ensures var r := StripRight(s);
      r <= s && (r != [] ==> !IsSpace(r[|r| - 1]))
  {
    if s != [] && IsSpace(s[|s| - 1]) {
      StripRightFacts(s[..|s| - 1]);
    }
  }

  lemma {:induction false} StripLeftFacts(s: string)
    ensures StripLeft(s) != [] ==> !IsSpace(StripLeft(s)[0])
  {
    if s != [] && IsSpace(s[0]) {
      StripLeftFacts(s[1..]);
    }
  }

  lemma StripStart(s: string)
    ensures Strip(s) != [] ==> !IsSpace(Strip(s)[0])
  {
    StripLeftFacts(s);
    StripRightFacts(StripLeft(s));
  }

  lemma SpaceSurvivesLower(c: char)
    ensures IsSpace(LowerChar(c)) <==> IsSpace(c)
  {
  }

  /** A nonempty name that starts with a letter stays nonempty and gains no parentheses. */
  lemma NormalizedShape(name: string)
    requires name != "" && !IsSpace(name[0]) && ParenFree(name)
    ensures NormalizeName(name) != "" && ParenFree(NormalizeName(name))
  {
    var t := Lower(Strip(name));
    SqueezeWords(name);
    WordsAreWords(t);
    JoinChars(Words(t));
    StripLeftFacts(name);
    StripRightFacts(name);
    assert StripLeft(name) == name && Strip(name) == StripRight(name);
    StripKeepsFirst(name);
    SpaceSurvivesLower(name[0]);
    assert t[0] == LowerChar(name[0]);
    assert Words(t) != [];
    JoinEnds(Words(t));
    LowerKeepsParens(Strip(name));
    forall c | c in Squeeze(name) ensures c != '(' && c != ')' {
      if c != ' ' {
        var w :| w in Words(t) && c in w;
        assert c in t;
      }
    }
    AliasIsTarget(Squeeze(name));
  }

  lemma {:induction false} StripKeepsFirst(s: string)
    requires s != [] && !IsSpace(s[0])
    ensures StripRight(s) != [] && StripRight(s)[0] == s[0] && forall c :: c in StripRight(s) ==> c in s
  {
    if IsSpace(s[|s| - 1]) {
      StripKeepsFirst(s[..|s| - 1]);
    }
  }

  lemma LowerKeepsParens(s: string)
    requires ParenFree(s)
    ensures ParenFree(Lower(s))
  {
    forall i | 0 <= i < |s| ensures Lower(s)[i] != '(' && Lower(s)[i] != ')' {
      assert s[i] in s;
    }
  }

  lemma MatchShape(s: string)
    requires MatchType(s).Some? && (s != [] ==> !IsSpace(s[0]))
    ensures var name := MatchType(s).value.name;
      name != "" && ParenFree(name) && !IsSpace(name[0])
  {
  }

  lemma InterpretShape(m: Matched)
    requires Interpret(m).Ok?
    ensures Interpret(m).value.name == NormalizeName(m.name) && Canonical(Interpret(m).value)
  {
  }

  /** Whatever the parser accepts has the canonical shape. */
  lemma ParsedIsRenderable(spec: string)
    requires ParsePostgresType(spec).Ok?
    ensures Renderable(ParsePostgresType(spec).value)
  {
    var s := Lower(Strip(spec));
    StripStart(spec);
    if Strip(spec) != [] {
      SpaceSurvivesLower(Strip(spec)[0]);
    }
    MatchShape(s);
    var m := MatchType(s).value;
    InterpretShape(m);
    NormalizedShape(m.name);
    NormalizeIdempotent(m.name);
  }

  /** Parsing, printing and parsing again is parsing once. */
  lemma ParseRenderParse(spec: string)
    requires ParsePostgresType(spec).Ok?
    ensures ParsePostgresType(Render(ParsePostgresType(spec).value)) == ParsePostgresType(spec)
  {
    ParsedIsRenderable(spec);
    RenderThenParse(ParsePostgresType(spec).value);
  }

  // ---------- types from information_schema ----------

  /** A collected type is canonical unless a numeric column reports a scale without a precision. */
  lemma CollectedCanonicalIff(dataType: string, udtName: string, length: Option<int>, precision: Option<int>,
                              scale: Option<int>)
    ensures var t := CanonicalizePostgresType(dataType, udtName, length, precision, scale);
      Canonical(t) <==> !(t.name == "numeric" && precision.None? && scale.Some?)
  {
    NormalizeIdempotent(if dataType != "USER-DEFINED" then dataType else udtName);
  }

  lemma NumericIsNormal()
    ensures NormalName("numeric") && ParenFree("numeric")
  {
    OneWordTarget("numeric");
    assert JoinWith(["numeric"], " ") == "numeric";
    JoinedIsSqueezed(["numeric"]);
  }

  lemma NumericRenderable(t: CanonicalType)
    requires t.name == "numeric" && Canonical(t)
    ensures Renderable(t)
  {
    NumericIsNormal();
  }

  /**
   `numeric(p)` and `numeric(p,0)` hold the same values, but the parser keeps them apart
   and the policy calls the change BREAKING in both directions.
   */
  lemma SameValuesTwoTypes(p: int)
    ensures var a, b := CanonicalType("numeric", None, Some(p), None), CanonicalType("numeric", None, Some(p), Some(0));
      ParsePostgresType(Render(a)) == Ok(a) && ParsePostgresType(Render(b)) == Ok(b) &&
      KeepsValues(a, b) && KeepsValues(b, a) && !Compatible(a, b) && !Compatible(b, a)
  {
    var a, b := CanonicalType("numeric", None, Some(p), None), CanonicalType("numeric", None, Some(p), Some(0));
    NumericRenderable(a);
    NumericRenderable(b);
    RenderThenParse(a);
    RenderThenParse(b);
    ScalelessIsScaleZero(a, b);
  }

  lemma ScalelessIsScaleZero(a: CanonicalType, b: CanonicalType)
    requires a.name == "numeric" && a.precision.Some? && a.scale.None? && b == a.(scale := Some(0))
    ensures KeepsValues(a, b) && KeepsValues(b, a) && !Compatible(a, b) && !Compatible(b, a)
  {
    assert ScaleOf(a) == ScaleOf(b);
    forall v ensures ValueOf(v, a) <==> ValueOf(v, b) {
    }
  }
}
