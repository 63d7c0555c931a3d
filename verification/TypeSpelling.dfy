/** How type texts read: whatever their case, whitespace and aliases, from the parser or the catalog. */
module TypeSpelling {
  import opened Options
  import opened Models
  import opened Strings
  import opened TypePolicy
  import opened TypeSyntax

  predicate Blank(s: string) {
    forall c :: c in s ==> IsSpace(c)
  }

  /** The words in their order, with any whitespace around and some between them. */
  ghost predicate Spells(s: string, ws: seq<string>)
    decreases |ws|
  {
    if ws == [] then Blank(s)
    else exists gap, rest :: Continues(s, gap, ws[0], rest) && Spells(rest, ws[1..])
  }

  predicate Continues(s: string, gap: string, word: string, rest: string) {
    s == gap + word + rest && Blank(gap) && Word(word) && (rest != [] ==> IsSpace(rest[0]))
  }

  function LowerAll(ws: seq<string>): seq<string> {
    seq(|ws|, i requires 0 <= i < |ws| => Lower(ws[i]))
  }

  /** The full name of the type some words name: in lower case, joined by single spaces, without alias. */
  function FullName(ws: seq<string>): string {
    Alias(JoinWith(LowerAll(ws), " "))
  }

  // ---------- words survive case and whitespace ----------

  lemma {:induction false} SkipBlank(gap: string, s: string)
    requires Blank(gap)
    ensures Words(gap + s) == Words(s)
    ensures StripLeft(gap + s) == StripLeft(s)
  {
    if gap == [] {
      assert gap + s == s;
    } else {
      assert gap[0] in gap && (gap + s)[1..] == gap[1..] + s;
      SkipBlank(gap[1..], s);
    }
  }

  lemma {:induction false} SpelledWords(s: string, ws: seq<string>)
    requires Spells(s, ws)
    ensures Words(s) == ws
    decreases |ws|
  {
    if ws == [] {
      SkipBlank(s, []);
      assert s + [] == s;
    } else {
      var gap, rest :| Continues(s, gap, ws[0], rest) && Spells(rest, ws[1..]);
      SpelledWords(rest, ws[1..]);
      assert s == gap + (ws[0] + rest);
      SkipBlank(gap, ws[0] + rest);
      SpelledWord(ws[0] + rest, ws[0], rest);
      assert ws == [ws[0]] + ws[1..];
    }
  }

  lemma SpelledWord(s: string, w: string, rest: string)
    requires s == w + rest && Word(w) && (rest != [] ==> IsSpace(rest[0]))
    ensures Words(s) == [w] + Words(rest)
  {
    FirstWordOf(w, rest);
    WordThenRest(s, w, rest);
  }

  lemma WordThenRest(s: string, w: string, rest: string)
    requires s == w + rest && Word(w) && FirstWord(s) == w
    ensures Words(s) == [w] + Words(rest)
  {
    assert w[0] in w && s[0] == w[0];
    assert s[|w|..] == rest;
  }

  lemma {:induction false} WordsOfLower(s: string)
    ensures Words(Lower(s)) == LowerAll(Words(s))
    decreases |s|
  {
    if s != [] {
      SpaceSurvivesLower(s[0]);
      if IsSpace(s[0]) {
        WordsOfLower(s[1..]);
        assert Lower(s)[1..] == Lower(s[1..]);
      } else {
        var w, rest := FirstWord(s), s[|FirstWord(s)|..];
        WordsOfLower(rest);
        LowerWord(w);
        assert Lower(s) == Lower(w) + Lower(rest);
        if rest != [] { SpaceSurvivesLower(rest[0]); }
        SpelledWord(Lower(s), Lower(w), Lower(rest));
      }
    }
  }

  lemma LowerWord(w: string)
    requires Word(w)
    ensures Word(Lower(w)) && Lower(Lower(w)) == Lower(w)
  {
    LowerFixed(w);
    LowerFixed(Lower(w));
    forall i | 0 <= i < |w| ensures !IsSpace(Lower(w)[i]) {
      assert w[i] in w;
      SpaceSurvivesLower(w[i]);
    }
  }

  lemma {:induction false} TrailingSpace(s: string, c: char)
    requires IsSpace(c)
    ensures Words(s + [c]) == Words(s)
    decreases |s|
  {
    if s == [] {
      assert (s + [c])[1..] == [];
    } else if IsSpace(s[0]) {
      assert (s + [c])[1..] == s[1..] + [c];
      TrailingSpace(s[1..], c);
    } else {
      var w, rest := FirstWord(s), s[|FirstWord(s)|..];
      assert s + [c] == w + (rest + [c]);
      assert rest != [] ==> (rest + [c])[0] == rest[0];
      FirstWordOf(w, rest + [c]);
      TrailingSpace(rest, c);
      assert (s + [c])[|w|..] == rest + [c];
    }
  }

  lemma {:induction false} WordsOfStripRight(s: string)
    ensures Words(StripRight(s)) == Words(s)
  {
    if s != [] && IsSpace(s[|s| - 1]) {
      WordsOfStripRight(s[..|s| - 1]);
      TrailingSpace(s[..|s| - 1], s[|s| - 1]);
      assert s == s[..|s| - 1] + [s[|s| - 1]];
    }
  }

  lemma {:induction false} WordsOfStripLeft(s: string)
    ensures Words(StripLeft(s)) == Words(s)
  {
    if s != [] && IsSpace(s[0]) {
      WordsOfStripLeft(s[1..]);
    }
  }

  lemma NormalizeByWords(name: string)
    ensures NormalizeName(name) == FullName(Words(name))
  {
    WordsOfStripLeft(name);
    WordsOfStripRight(StripLeft(name));
    WordsOfLower(Strip(name));
  }

  /** Any spelling of the words normalises to the full name of their type. */
  lemma NormalizedSpelling(name: string, ws: seq<string>)
    requires Spells(name, ws)
    ensures NormalizeName(name) == FullName(ws)
  {
    SpelledWords(name, ws);
    NormalizeByWords(name);
  }

  /** The aliases, each with its full name; every other name stands for itself. */
  lemma AliasesExact(name: string)
    ensures Alias("bool") == "boolean" && Alias("decimal") == "numeric" && Alias("varchar") == "character varying"
    ensures Alias("int2") == "smallint" && Alias("int4") == "integer" && Alias("int8") == "bigint"
    ensures Alias("float8") == "double precision" && Alias("timestamp") == "timestamp without time zone"
    ensures Alias("timestamptz") == "timestamp with time zone"
    ensures Alias(name) == name ||
      name in {"bool", "decimal", "float8", "int2", "int4", "int8", "timestamp", "timestamptz", "varchar"}
  {
    AliasesOfOneWord();
    AliasesOfTwoWords();
    AliasesOfFourWords();
  }

  lemma AliasesOfOneWord()
    ensures Alias("bool") == "boolean" && Alias("decimal") == "numeric"
    ensures Alias("int2") == "smallint" && Alias("int4") == "integer" && Alias("int8") == "bigint"
  {
  }

  lemma AliasesOfTwoWords()
    ensures Alias("float8") == "double precision" && Alias("varchar") == "character varying"
  {
    JoinTwo("double", "precision");
    JoinTwo("character", "varying");
  }

  lemma AliasesOfFourWords()
    ensures Alias("timestamp") == "timestamp without time zone"
    ensures Alias("timestamptz") == "timestamp with time zone"
  {
    JoinFour("timestamp", "without", "time", "zone");
    JoinFour("timestamp", "with", "time", "zone");
  }

  // ---------- the parser ----------

  /** The matched texts: a nonempty name, or a nonempty name and a parenthesised argument text. */
  lemma MatchExact(s: string, m: Matched)
    ensures MatchType(s) == Some(m) <==>
      (m.name != "" && ParenFree(m.name) &&
       match m.arguments
       case None => s == m.name
       case Some(args) => ParenFree(args) && s == m.name + "(" + args + ")")
  {
    if m.name != "" && ParenFree(m.name) && m.arguments.Some? && ParenFree(m.arguments.value) {
      MatchShapeOf(m.name, m.arguments.value);
    }
    if '(' in s && MatchType(s) == Some(m) {
      var i := IndexOf(s, '(');
      assert s == s[..i] + [s[i]] + s[i + 1..|s| - 1] + [s[|s| - 1]];
    }
  }

  /** Decimal text of the number, with any whitespace around it. */
  ghost predicate SpellsInt(arg: string, n: int) {
    exists left, right :: Padded(arg, left, IntText(n), right)
  }

  predicate Padded(s: string, left: string, core: string, right: string) {
    s == left + core + right && Blank(left) && Blank(right)
  }

  lemma {:induction false} DropBlank(s: string, right: string)
    requires Blank(right) && (s != [] ==> !IsSpace(s[|s| - 1]))
    ensures StripRight(s + right) == s
    decreases |right|
  {
    if right == [] {
      assert s + right == s;
    } else {
      var n := |right| - 1;
      assert right[n] in right && (s + right)[|s + right| - 1] == right[n];
      assert (s + right)[..|s + right| - 1] == s + right[..n];
      DropBlank(s, right[..n]);
    }
  }

  lemma ArgumentReads(arg: string, n: int)
    requires SpellsInt(arg, n)
    ensures ParseInt(arg) == Some(n)
    ensures ParenFree(arg) && IsLower(arg) && ',' !in arg
  {
    var t := IntText(n);
    var left, right :| Padded(arg, left, t, right);
    IntTextEnds(n);
    assert arg == left + (t + right);
    StrippedCore(left, t, right);
    Trimmed(t);
    ParseIntOfText(n);
    PaddedText(arg, left, right, n);
  }

  lemma IntTextEnds(n: int)
    ensures var t := IntText(n);
      t != [] && !IsSpace(t[0]) && !IsSpace(t[|t| - 1])
  {
    var t, digits := IntText(n), NatText(if n < 0 then -n else n);
    NatTextRun(if n < 0 then -n else n);
    assert t[|t| - 1] == digits[|digits| - 1];
  }

  lemma PaddedText(arg: string, left: string, right: string, n: int)
    requires Padded(arg, left, IntText(n), right)
    ensures ParenFree(arg) && IsLower(arg) && ',' !in arg
  {
    ArgumentText(n);
  }

  lemma {:induction false} ArgumentsRead(args: seq<string>, values: seq<int>)
    requires |args| == |values| && forall i :: 0 <= i < |args| ==> SpellsInt(args[i], values[i])
    ensures ParseInts(args) == Some(values)
  {
    if args != [] {
      ArgumentReads(args[0], values[0]);
      ArgumentsRead(args[1..], values[1..]);
      assert values == [values[0]] + values[1..];
    }
  }

  lemma {:induction false} JoinedArguments(args: seq<string>)
    requires forall a :: a in args ==> ParenFree(a) && IsLower(a)
    ensures ParenFree(JoinWith(args, ",")) && IsLower(JoinWith(args, ","))
  {
    if |args| > 1 {
      assert args[0] in args;
      JoinedArguments(args[1..]);
      PlainText(args[0], JoinWith(args[1..], ","));
    }
  }

  /** The name part of a type text, once the parser has stripped and lowered it. */
  lemma NamePart(s: string, ws: seq<string>)
    requires Spells(s, ws) && ws != [] && ParenFree(s)
    ensures var name := Lower(StripLeft(s));
      name != "" && ParenFree(name) && NormalizeName(name) == FullName(ws)
    ensures StripLeft(s) != "" && !IsSpace(StripLeft(s)[0])
  {
    SpelledWords(s, ws);
    WordsOfStripLeft(s);
    WordsOfLower(StripLeft(s));
    NormalizeByWords(Lower(StripLeft(s)));
    StripLeftFacts(s);
    StripLeftOnly(s);
    LowerKeepsParens(StripLeft(s));
    LowerAllTwice(s, ws);
  }

  lemma {:induction false} StripLeftOnly(s: string)
    ensures forall c :: c in StripLeft(s) ==> c in s
  {
    if s != [] && IsSpace(s[0]) {
      StripLeftOnly(s[1..]);
    }
  }

  /** The text of a type without modifiers, once the parser has stripped and lowered it. */
  lemma WholeName(s: string, ws: seq<string>)
    requires Spells(s, ws) && ws != [] && ParenFree(s)
    ensures var name := Lower(Strip(s));
      name != "" && ParenFree(name) && NormalizeName(name) == FullName(ws)
  {
    SpelledWords(s, ws);
    WordsOfStripLeft(s);
    WordsOfStripRight(StripLeft(s));
    WordsOfLower(Strip(s));
    LowerAllTwice(s, ws);
    NormalizeByWords(Lower(Strip(s)));
    StripLeftOnly(s);
    StripLeftFacts(s);
    StripKeepsFirst(StripLeft(s));
    LowerKeepsParens(Strip(s));
  }

  /** A type without modifiers: its full name, in whatever spelling. */
  lemma PlainTypeParses(s: string, ws: seq<string>)
    requires Spells(s, ws) && ws != [] && ParenFree(s)
    ensures ParsePostgresType(s) == Ok(CanonicalType(FullName(ws), None, None, None))
  {
    var m := Matched(Lower(Strip(s)), None);
    WholeName(s, ws);
    MatchExact(m.name, m);
    ParseMatched(s, m);
  }

  lemma LowerAllTwice(s: string, ws: seq<string>)
    requires Words(s) == ws
    ensures LowerAll(LowerAll(ws)) == LowerAll(ws)
  {
    WordsAreWords(s);
    forall i | 0 <= i < |ws| ensures Lower(Lower(ws[i])) == Lower(ws[i]) {
      assert ws[i] in Words(s);
      LowerWord(ws[i]);
    }
  }

  /**
   A type with modifiers, in any spelling of name and numbers: one length on the character and
   bit types, precision and perhaps scale on `numeric`, and an error everywhere else.
   */
  lemma ModifiedTypeParses(s: string, ws: seq<string>, args: seq<string>, values: seq<int>, tail: string)
    requires Spells(s, ws) && ws != [] && ParenFree(s) && Blank(tail)
    requires |args| == |values| > 0 && forall i :: 0 <= i < |args| ==> SpellsInt(args[i], values[i])
    ensures ParsePostgresType(s + "(" + JoinWith(args, ",") + ")" + tail) ==
      var name := FullName(ws);
      if name in {"character", "character varying", "bit", "bit varying"} && |values| == 1 then
        Ok(CanonicalType(name, Some(values[0]), None, None))
      else if name == "numeric" && |values| <= 2 then
        Ok(CanonicalType(name, None, Some(values[0]), if |values| == 2 then Some(values[1]) else None))
      else Err("unsupported PostgreSQL type modifiers")
  {
    var joined := JoinWith(args, ",");
    forall a | a in args ensures ParenFree(a) && IsLower(a) && ',' !in a {
      var i :| 0 <= i < |args| && args[i] == a;
      ArgumentReads(args[i], values[i]);
    }
    JoinedArguments(args);
    var name := Lower(StripLeft(s));
    NamePart(s, ws);
    StrippedType(s, joined, tail);
    MatchShapeOf(name, joined);
    var m := Matched(name, Some(joined));
    ParseMatched(s + "(" + joined + ")" + tail, m);
    SplitOnJoined(args, ',');
    ArgumentsRead(args, values);
    assert Interpret(m) == WithModifiers(FullName(ws), values);
  }

  lemma StrippedType(s: string, args: string, tail: string)
    requires StripLeft(s) != "" && !IsSpace(StripLeft(s)[0]) && IsLower(args) && Blank(tail)
    ensures Lower(Strip(s + "(" + args + ")" + tail)) == Lower(StripLeft(s)) + "(" + args + ")"
  {
    var name := StripLeft(s);
    StripLeftSuffix(s);
    var gap := s[..|s| - |name|];
    assert s == gap + name;
    Regrouped(gap, name, args, tail);
    StrippedCore(gap, name + "(" + args + ")", tail);
    LowerFixed(args);
    LowerOfParts(name, args);
  }

  lemma Regrouped(gap: string, name: string, args: string, tail: string)
    ensures gap + name + "(" + args + ")" + tail == gap + (name + "(" + args + ")" + tail)
  {
  }

  lemma StrippedCore(gap: string, core: string, tail: string)
    requires core != [] && !IsSpace(core[0]) && !IsSpace(core[|core| - 1]) && Blank(gap) && Blank(tail)
    ensures Strip(gap + (core + tail)) == core
  {
    SkipBlank(gap, core + tail);
    DropBlank(core, tail);
  }

  lemma LowerOfParts(name: string, args: string)
    ensures Lower(name + "(" + args + ")") == Lower(name) + "(" + Lower(args) + ")"
  {
  }

  lemma {:induction false} StripLeftSuffix(s: string)
    ensures |StripLeft(s)| <= |s|
    ensures s[|s| - |StripLeft(s)|..] == StripLeft(s) && Blank(s[..|s| - |StripLeft(s)|])
  {
    if s != [] && IsSpace(s[0]) {
      StripLeftSuffix(s[1..]);
      var n := |s| - |StripLeft(s)|;
      assert s[..n] == [s[0]] + s[1..][..n - 1];
    }
  }

  // ---------- types from information_schema ----------

  /** A canonical type reported name and modifiers apart is the type its text stands for, modifiers kept. */
  lemma CollectedIsParsed(t: CanonicalType, udtName: string)
    requires Renderable(t)
    ensures CanonicalizePostgresType(t.name, udtName, t.length, t.precision, t.scale) == t
    ensures ParsePostgresType(Render(t)) ==
      Ok(CanonicalizePostgresType(t.name, udtName, t.length, t.precision, t.scale))
  {
    MatchPlain(t.name);
    RenderThenParse(t);
    NotUserDefined(t.name);
    CollectedAs(t.name, udtName, t.length, t.precision, t.scale);
  }

  /** The marker of user-defined types is in upper case, normal names are not. */
  lemma NotUserDefined(name: string)
    requires Lower(name) == name
    ensures name != "USER-DEFINED"
  {
    if name != "" {
      assert Lower(name)[0] != 'U';
    }
  }

  lemma CollectedAs(dataType: string, udtName: string, length: Option<int>, precision: Option<int>, scale: Option<int>)
    ensures CanonicalizePostgresType(dataType, udtName, length, precision, scale) ==
      var name := NormalizeName(if dataType == "USER-DEFINED" then udtName else dataType);
      if name in {"character", "character varying", "bit", "bit varying"} then CanonicalType(name, length, None, None)
      else if name == "numeric" then CanonicalType(name, None, precision, scale)
      else CanonicalType(name, None, None, None)
  {
  }

  /**
   Whatever is reported: the type is named by the data type, or by the underlying type when the
   data type is USER-DEFINED, in any spelling; a length is kept on the character and bit types
   only, precision and scale on `numeric` only.
   */
  lemma CollectedExact(dataType: string, udtName: string, length: Option<int>, precision: Option<int>,
                       scale: Option<int>, ws: seq<string>)
    requires Spells(if dataType == "USER-DEFINED" then udtName else dataType, ws)
    ensures CanonicalizePostgresType(dataType, udtName, length, precision, scale) ==
      var name := FullName(ws);
      if name in {"character", "character varying", "bit", "bit varying"} then CanonicalType(name, length, None, None)
      else if name == "numeric" then CanonicalType(name, None, precision, scale)
      else CanonicalType(name, None, None, None)
  {
    NormalizedSpelling(if dataType == "USER-DEFINED" then udtName else dataType, ws);
    CollectedAs(dataType, udtName, length, precision, scale);
  }

  /** Every text spells its words, and no other list of words. */
  lemma SpellsIff(s: string, ws: seq<string>)
    ensures Spells(s, ws) <==> ws == Words(s)
  {
    if Spells(s, ws) {
      SpelledWords(s, ws);
    }
    if ws == Words(s) {
      EveryTextSpells(s);
    }
  }

  lemma SpellsWord(s: string, gap: string, w: string, rest: string, ws: seq<string>)
    requires Continues(s, gap, w, rest) && Spells(rest, ws)
    ensures Spells(s, [w] + ws)
  {
    assert ([w] + ws)[1..] == ws && ([w] + ws)[0] == w;
  }

  lemma {:induction false} EveryTextSpells(s: string)
    ensures Spells(s, Words(s))
    decreases |s|
  {
    if s != [] && IsSpace(s[0]) {
      EveryTextSpells(s[1..]);
      SpellsAfterSpace(s, Words(s));
    } else if s != [] {
      var w := FirstWord(s);
      EveryTextSpells(s[|w|..]);
      assert w[0] == s[0] && s == [] + w + s[|w|..];
      SpellsWord(s, [], w, s[|w|..], Words(s[|w|..]));
    }
  }

  lemma SpellsAfterSpace(s: string, ws: seq<string>)
    requires s != [] && IsSpace(s[0]) && Spells(s[1..], ws)
    ensures Spells(s, ws)
  {
    if ws != [] {
      var gap, rest :| Continues(s[1..], gap, ws[0], rest) && Spells(rest, ws[1..]);
      assert s == [s[0]] + s[1..];
      assert s == ([s[0]] + gap) + ws[0] + rest;
      SpellsWord(s, [s[0]] + gap, ws[0], rest, ws[1..]);
      assert ws == [ws[0]] + ws[1..];
    }
  }
}
