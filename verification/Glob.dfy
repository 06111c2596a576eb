/** The translation of globs into regular expressions, and the address check of AuthServiceImpl that uses it. */
module Glob {
  import opened Wrappers

  // ---------------------------------------------------------------- globs

  /**
   A star stands for any string, a question mark for any character, anything else for itself. `dot`
   says what counts as a character.
   */
  predicate GlobMatches(glob: string, s: string, dot: char -> bool)
    decreases |glob| + |s|
  {
    if glob == "" then s == ""
    else if glob[0] == '*' then
      GlobMatches(glob[1..], s, dot) || (s != "" && dot(s[0]) && GlobMatches(glob, s[1..], dot))
    else s != "" && (if glob[0] == '?' then dot(s[0]) else s[0] == glob[0]) && GlobMatches(glob[1..], s[1..], dot)
  }

  // ---------------------------------------------------------------- regular expressions

  // The characters that are not themselves in a regular expression.
  predicate IsMeta(c: char) {
    c in "\\^$.|?*+()[{}"
  }

  // The line terminators, which the dot does not match.
  predicate IsLineBreak(c: char) {
    c in "\n\r\U{0085}\U{2028}\U{2029}"
  }

  predicate IsDot(c: char) {
    !IsLineBreak(c)
  }

  datatype Atom = Literal(c: char) | AnyCharacter

  // An atom, to be matched once, any number of times, or at least once.
  datatype Piece = Once(atom: Atom) | Star(atom: Atom) | Plus(atom: Atom)

  predicate AtomMatches(atom: Atom, c: char) {
    match atom
    case Literal(d) => c == d
    case AnyCharacter => IsDot(c)
  }

  predicate PiecesMatch(pieces: seq<Piece>, s: string)
    decreases |pieces| + |s|
  {
    if pieces == [] then s == ""
    else
      match pieces[0]
      case Once(atom) => s != "" && AtomMatches(atom, s[0]) && PiecesMatch(pieces[1..], s[1..])
      case Star(atom) =>
        PiecesMatch(pieces[1..], s) || (s != "" && AtomMatches(atom, s[0]) && PiecesMatch(pieces, s[1..]))
      case Plus(atom) =>
        s != "" && AtomMatches(atom, s[0]) && (PiecesMatch(pieces[1..], s[1..]) || PiecesMatch(pieces, s[1..]))
  }

  // The pieces of an expression without groups, classes, alternatives, counts, and quantifiers
  // that are quantified themselves.
  function ParsePieces(r: string): Option<seq<Piece>>
    decreases |r|, 0
  {
    if r == "" then Some([])
    else if r[0] == '\\' then
      if |r| < 2 || !IsMeta(r[1]) then None else ParseQuantifier(Literal(r[1]), r[2..])
    else if r[0] == '.' then ParseQuantifier(AnyCharacter, r[1..])
    else if IsMeta(r[0]) then None
    else ParseQuantifier(Literal(r[0]), r[1..])
  }

  function ParseQuantifier(atom: Atom, r: string): Option<seq<Piece>>
    decreases |r|, 1
  {
    var quantified := r != "" && r[0] in "*+";
    var rest := ParsePieces(if quantified then r[1..] else r);
    if rest.None? then None
    else Some([if !quantified then Once(atom) else if r[0] == '*' then Star(atom) else Plus(atom)] + rest.value)
  }

  /** The whole string is matched by an expression of this kind between a circumflex and a dollar sign. */
  predicate RegexMatches(regex: string, s: string) {
    && |regex| >= 2 && regex[0] == '^' && regex[|regex| - 1] == '$'
    && var pieces := ParsePieces(regex[1..|regex| - 1]);
       pieces.Some? && PiecesMatch(pieces.value, s)
  }

  // ---------------------------------------------------------------- the translation

  function Translate(c: char): string {
    match c
    case '*' => ".*"
    case '?' => "."
    case '.' => "\\."
    case '\\' => "\\\\"
    case _ => [c]
  }

  function TranslateAll(glob: string): string {
    if glob == "" then "" else Translate(glob[0]) + TranslateAll(glob[1..])
  }

  function RegexOf(glob: string): string {
    "^" + TranslateAll(glob) + "$"
  }

  lemma {:induction false} TranslateLast(glob: string, c: char)
    ensures TranslateAll(glob + [c]) == TranslateAll(glob) + Translate(c)
  {
    hide Translate;
    if glob == "" {
      assert glob + [c] == [c] && TranslateAll([c][1..]) == "";
    } else {
      assert (glob + [c])[0] == glob[0] && (glob + [c])[1..] == glob[1..] + [c];
      TranslateLast(glob[1..], c);
      assert Translate(glob[0]) + (TranslateAll(glob[1..]) + Translate(c)) ==
        Translate(glob[0]) + TranslateAll(glob[1..]) + Translate(c);
    }
  }

  method CreateRegexFromGlob(glob: string) returns (out: string)
    ensures out == RegexOf(glob)
  {
    out := "^";
    for i := 0 to |glob|
      invariant out == "^" + TranslateAll(glob[..i])
    {
      var c := glob[i];
      assert glob[..i + 1] == glob[..i] + [c];
      TranslateLast(glob[..i], c);
      match c {
        case '*' => out := out + ".*";
        case '?' => out := out + ".";
        case '.' => out := out + "\\.";
        case '\\' => out := out + "\\\\";
        case _ => out := out + [c];
      }
    }
    assert glob[..|glob|] == glob;
    out := out + "$";
  }

  /** Star, question mark, dot and backslash are the only special characters of this glob. */
  predicate IsPlain(glob: string) {
    forall c :: c in glob ==> !IsMeta(c) || c in "*?.\\"
  }

  function AtomOf(c: char): Atom {
    if c == '?' then AnyCharacter else Literal(c)
  }

  /**
   The pieces of the expression that a glob is translated to: a plus sign, which means nothing
   in a glob, quantifies what comes before it. None if the expression has other special
   characters, or a plus sign that quantifies nothing or a quantifier.
   */
  function PiecesOf(glob: string): Option<seq<Piece>> {
    if glob == "" then Some([])
    else if glob[0] == '*' then Prepend(Star(AnyCharacter), PiecesOf(glob[1..]))
    else if IsMeta(glob[0]) && glob[0] !in "?.\\" then None
    else if |glob| > 1 && glob[1] == '+' then Prepend(Plus(AtomOf(glob[0])), PiecesOf(glob[2..]))
    else Prepend(Once(AtomOf(glob[0])), PiecesOf(glob[1..]))
  }

  function Prepend(piece: Piece, rest: Option<seq<Piece>>): Option<seq<Piece>> {
    if rest.None? then None else Some([piece] + rest.value)
  }

  // What the translation of a glob begins with.
  lemma Begins(glob: string)
    ensures TranslateAll(glob) == "" <==> glob == ""
    ensures glob != "" ==> TranslateAll(glob)[0] != '*' && (TranslateAll(glob)[0] == '+' <==> glob[0] == '+')
    ensures glob != "" && glob[0] == '+' ==> TranslateAll(glob)[1..] == TranslateAll(glob[1..])
  {
  }

  lemma QuantifierParses(atom: Atom, glob: string)
    ensures ParseQuantifier(atom, TranslateAll(glob)) ==
            if glob != "" && glob[0] == '+' then Prepend(Plus(atom), ParsePieces(TranslateAll(glob[1..])))
            else Prepend(Once(atom), ParsePieces(TranslateAll(glob)))
  {
    Begins(glob);
  }

  // What the translation of one character is read as.
  lemma FirstParses(c: char, rest: string)
    ensures var pieces := ParsePieces(Translate(c) + rest);
            if c == '*' then pieces == Prepend(Star(AnyCharacter), ParsePieces(rest))
            else if IsMeta(c) && c !in "?.\\" then pieces == None
            else pieces == ParseQuantifier(AtomOf(c), rest)
  {
    var r := Translate(c) + rest;
    if c == '*' {
      assert r[1..] == "*" + rest && r[1..][1..] == rest;
    } else {
      assert r[|Translate(c)|..] == rest;
    }
  }

  lemma {:induction false} TranslationParses(glob: string)
    ensures ParsePieces(TranslateAll(glob)) == PiecesOf(glob)
    decreases |glob|
  {
    if glob != "" {
      var c := glob[0];
      assert TranslateAll(glob) == Translate(c) + TranslateAll(glob[1..]);
      FirstParses(c, TranslateAll(glob[1..]));
      QuantifierParses(AtomOf(c), glob[1..]);
      hide ParsePieces, ParseQuantifier, Translate, TranslateAll, IsMeta;
      TranslationParses(glob[1..]);
      if |glob| > 1 {
        TranslationParses(glob[2..]);
        assert glob[1..][1..] == glob[2..];
      }
    }
  }

  // Without plus signs and other special characters the glob has an expression, piece by piece.
  lemma {:induction false} PlainParses(glob: string)
    requires IsPlain(glob)
    ensures PiecesOf(glob).Some?
  {
    if glob != "" {
      assert glob[0] in glob && forall c :: c in glob[1..] ==> c in glob;
      assert |glob| > 1 ==> glob[1] in glob;
      PlainParses(glob[1..]);
    }
  }

  lemma {:induction false} PiecesMatchGlob(glob: string, s: string)
    requires IsPlain(glob) && PiecesOf(glob).Some?
    ensures PiecesMatch(PiecesOf(glob).value, s) <==> GlobMatches(glob, s, IsDot)
    decreases |glob| + |s|
  {
    if glob != "" {
      assert forall c :: c in glob[1..] ==> c in glob;
      assert |glob| > 1 ==> glob[1] in glob;
      assert PiecesOf(glob).value[1..] == PiecesOf(glob[1..]).value;
      if glob[0] == '*' {
        PiecesMatchGlob(glob[1..], s);
        if s != "" {
          PiecesMatchGlob(glob, s[1..]);
        }
      } else if s != "" {
        PiecesMatchGlob(glob[1..], s[1..]);
      }
    }
  }

  lemma RegexOfGlob(glob: string, s: string)
    ensures RegexMatches(RegexOf(glob), s) <==> PiecesOf(glob).Some? && PiecesMatch(PiecesOf(glob).value, s)
  {
    assert RegexOf(glob)[1..|RegexOf(glob)| - 1] == TranslateAll(glob);
    TranslationParses(glob);
  }

  /**
   The expression matches a string exactly if the glob does, where a line break is no character for
   a star or a question mark.
   */
  lemma TranslationKeepsMeaning(glob: string, s: string)
    requires IsPlain(glob)
    ensures RegexMatches(RegexOf(glob), s) <==> GlobMatches(glob, s, IsDot)
  {
    RegexOfGlob(glob, s);
    PlainParses(glob);
    PiecesMatchGlob(glob, s);
  }

  // ---------------------------------------------------------------- plus signs

  // The characters that a string needs at least to match the glob.
  function LeastLength(glob: string): nat {
    if glob == "" then 0 else LeastLength(glob[1..]) + (if glob[0] == '*' then 0 else 1)
  }

  lemma {:induction false} MatchesAreLong(glob: string, s: string)
    requires GlobMatches(glob, s, IsDot)
    ensures |s| >= LeastLength(glob)
    decreases |glob| + |s|
  {
    if glob != "" {
      if glob[0] != '*' {
        MatchesAreLong(glob[1..], s[1..]);
      } else if GlobMatches(glob[1..], s, IsDot) {
        MatchesAreLong(glob[1..], s);
      } else {
        MatchesAreLong(glob, s[1..]);
      }
    }
  }

  // A shortest string that the pieces match.
  function Shortest(pieces: seq<Piece>): string {
    if pieces == [] then ""
    else if pieces[0].Star? then Shortest(pieces[1..])
    else [if pieces[0].atom.Literal? then pieces[0].atom.c else 'x'] + Shortest(pieces[1..])
  }

  lemma {:induction false} ShortestMatches(pieces: seq<Piece>)
    ensures PiecesMatch(pieces, Shortest(pieces))
  {
    if pieces != [] {
      ShortestMatches(pieces[1..]);
      if !pieces[0].Star? {
        assert Shortest(pieces)[1..] == Shortest(pieces[1..]);
      }
    }
  }

  // A plus sign costs the glob a character, but not the expression.
  lemma {:induction false} ShortestIsShort(glob: string)
    requires PiecesOf(glob).Some?
    ensures |Shortest(PiecesOf(glob).value)| <= LeastLength(glob)
    ensures '+' in glob ==> |Shortest(PiecesOf(glob).value)| < LeastLength(glob)
    decreases |glob|
  {
    if glob != "" {
      var plus := glob[0] != '*' && |glob| > 1 && glob[1] == '+';
      var rest := glob[if plus then 2 else 1..];
      ShortestIsShort(rest);
      assert PiecesOf(glob).value[1..] == PiecesOf(rest).value;
      assert plus ==> glob[1..][1..] == glob[2..] && LeastLength(glob) == LeastLength(glob[2..]) + 2;
      assert glob == [glob[0]] + glob[1..];
    }
  }

  lemma PlainWithoutPlus(glob: string)
    requires PiecesOf(glob).Some? && '+' !in glob
    ensures IsPlain(glob)
    decreases |glob|
  {
    if glob != "" {
      assert forall c :: c in glob[1..] ==> c in glob;
      assert |glob| > 1 ==> glob[1] in glob;
      PlainWithoutPlus(glob[1..]);
      assert glob == [glob[0]] + glob[1..];
    }
  }

  // Stars and question marks match themselves, too.
  lemma {:induction false} MatchesItself(glob: string)
    ensures GlobMatches(glob, glob, IsDot)
  {
    if glob != "" {
      MatchesItself(glob[1..]);
      if glob[0] == '*' {
        assert GlobMatches(glob, glob[1..], IsDot);
      }
    }
  }

  /**
   Plus signs, brackets, and other special characters are not escaped. A glob keeps its meaning
   exactly if it has none of them: a plus sign makes the expression match strings that are too
   short for the glob, and expressions with other constructs are not read at all here.
   */
  lemma KeepsMeaningExactly(glob: string)
    ensures (forall s :: RegexMatches(RegexOf(glob), s) <==> GlobMatches(glob, s, IsDot)) <==> IsPlain(glob)
  {
    if IsPlain(glob) {
      forall s ensures RegexMatches(RegexOf(glob), s) <==> GlobMatches(glob, s, IsDot) {
        TranslationKeepsMeaning(glob, s);
      }
    } else if PiecesOf(glob).None? {
      RegexOfGlob(glob, glob);
      MatchesItself(glob);
    } else {
      if '+' !in glob {
        PlainWithoutPlus(glob);
      }
      var s := Shortest(PiecesOf(glob).value);
      ShortestMatches(PiecesOf(glob).value);
      RegexOfGlob(glob, s);
      ShortestIsShort(glob);
      if GlobMatches(glob, s, IsDot) {
        MatchesAreLong(glob, s);
      }
    }
  }

  lemma PlusIsNotEscaped()
    ensures RegexMatches(RegexOf("a+"), "aa") && !GlobMatches("a+", "aa", IsDot)
    ensures !RegexMatches(RegexOf("a+"), "a+") && GlobMatches("a+", "a+", IsDot)
  {
    var glob, pieces, a := "a+", [Plus(Literal('a'))], ['a'];
    RegexOfGlob(glob, "aa");
    RegexOfGlob(glob, glob);
    assert PiecesOf(glob) == Some(pieces) by {
      assert PiecesOf(glob[2..]) == Some([]) && AtomOf('a') == Literal('a') && !IsMeta('a');
      assert [Plus(Literal('a'))] + [] == pieces;
    }
    assert PiecesMatch(pieces[1..], a[1..]) && PiecesMatch(pieces, a);
    assert "aa"[1..] == a && "aa"[0] == 'a';
    assert glob[1..][0] == '+' && glob[1..][1..] == "";
    assert GlobMatches(glob[1..], glob[1..], IsDot);
  }

  /** On a string without line breaks it is the glob itself. */
  lemma {:induction false} WithoutLineBreaks(glob: string, s: string)
    requires forall c :: c in s ==> !IsLineBreak(c)
    ensures GlobMatches(glob, s, IsDot) <==> GlobMatches(glob, s, _ => true)
    decreases |glob| + |s|
  {
    if glob != "" {
      if glob[0] == '*' {
        WithoutLineBreaks(glob[1..], s);
      }
      if s != "" {
        assert s[0] in s && forall c :: c in s[1..] ==> c in s;
        if glob[0] == '*' {
          WithoutLineBreaks(glob, s[1..]);
        } else {
          WithoutLineBreaks(glob[1..], s[1..]);
        }
      }
    }
  }

  // ---------------------------------------------------------------- the address check

  // The engine says which strings a compiled expression matches.
  ghost predicate SomeMatches(globs: seq<string>, ip: string, engine: (string, string) -> bool) {
    exists i :: 0 <= i < |globs| && engine(RegexOf(globs[i]), ip)
  }

  /**
   An address is allowed if no black pattern matches it or some white pattern does. Without a
   black list every address is allowed; without a white list there are no exceptions.
   */
  ghost predicate Allowed(ipBlackList: Option<seq<string>>, ipWhiteList: Option<seq<string>>, ip: string,
                          engine: (string, string) -> bool) {
    || ipBlackList.None?
    || !SomeMatches(ipBlackList.value, ip, engine)
    || (ipWhiteList.Some? && SomeMatches(ipWhiteList.value, ip, engine))
  }

  method CompilePatterns(globs: seq<string>) returns (patterns: seq<string>)
    ensures |patterns| == |globs| && forall i :: 0 <= i < |globs| ==> patterns[i] == RegexOf(globs[i])
  {
    patterns := [];
    for i := 0 to |globs|
      invariant |patterns| == i && forall j :: 0 <= j < i ==> patterns[j] == RegexOf(globs[j])
    {
      var pattern := CreateRegexFromGlob(globs[i]);
      patterns := patterns + [pattern];
    }
  }

  method AnyMatches(patterns: seq<string>, ip: string, engine: (string, string) -> bool) returns (found: bool)
    ensures found <==> exists i :: 0 <= i < |patterns| && engine(patterns[i], ip)
  {
    for i := 0 to |patterns|
      invariant forall j :: 0 <= j < i ==> !engine(patterns[j], ip)
    {
      if engine(patterns[i], ip) {
        return true;
      }
    }
    return false;
  }

  method IsIpAllowed(ipBlackList: Option<seq<string>>, ipWhiteList: Option<seq<string>>, ip: string,
                     engine: (string, string) -> bool)
    returns (allowed: bool)
    ensures allowed <==> Allowed(ipBlackList, ipWhiteList, ip, engine)
  {
    if ipBlackList.None? {
      return true;
    }
    allowed := true;
    var blackPatterns := CompilePatterns(ipBlackList.value);
    var black := AnyMatches(blackPatterns, ip, engine);
    if black {
      allowed := false;
    }
    if ipWhiteList.None? {
      return allowed;
    }
    var whitePatterns := CompilePatterns(ipWhiteList.value);
    var white := AnyMatches(whitePatterns, ip, engine);
    if white {
      allowed := true;
    }
  }

  /**
   With an engine that understands the expressions above, a list of plain globs matches an
   address exactly if one of the globs does; no address contains a line break.
   */
  lemma PlainListMatches(globs: seq<string>, ip: string, engine: (string, string) -> bool)
    requires forall glob :: glob in globs ==> IsPlain(glob)
    requires forall glob | glob in globs :: engine(RegexOf(glob), ip) == RegexMatches(RegexOf(glob), ip)
    requires forall c :: c in ip ==> !IsLineBreak(c)
    ensures SomeMatches(globs, ip, engine) <==> exists glob :: glob in globs && GlobMatches(glob, ip, _ => true)
  {
    forall glob | glob in globs ensures engine(RegexOf(glob), ip) <==> GlobMatches(glob, ip, _ => true) {
      TranslationKeepsMeaning(glob, ip);
      WithoutLineBreaks(glob, ip);
    }
    if glob :| glob in globs && GlobMatches(glob, ip, _ => true) {
      var i :| 0 <= i < |globs| && globs[i] == glob;
      assert engine(RegexOf(globs[i]), ip);
    }
  }

  ghost predicate SomeGlobMatches(globs: seq<string>, ip: string) {
    exists glob :: glob in globs && GlobMatches(glob, ip, _ => true)
  }

  // The engine understands the expressions of these globs.
  ghost predicate Understands(engine: (string, string) -> bool, globs: seq<string>, ip: string) {
    forall glob | glob in globs :: IsPlain(glob) && engine(RegexOf(glob), ip) == RegexMatches(RegexOf(glob), ip)
  }

  /**
   By lists of plain globs an address is allowed exactly if there is no black list, no glob of
   the black list matches it, or one of the white list does.
   */
  lemma AllowedExactly(black: Option<seq<string>>, white: Option<seq<string>>, ip: string,
                       engine: (string, string) -> bool)
    requires black.Some? ==> Understands(engine, black.value, ip)
    requires white.Some? ==> Understands(engine, white.value, ip)
    requires forall c :: c in ip ==> !IsLineBreak(c)
    ensures black.None? ==> Allowed(black, white, ip, engine)
    ensures black.Some? && white.None? ==> (Allowed(black, white, ip, engine) <==> !SomeGlobMatches(black.value, ip))
    ensures black.Some? && white.Some? ==>
              (Allowed(black, white, ip, engine) <==>
                 !SomeGlobMatches(black.value, ip) || SomeGlobMatches(white.value, ip))
  {
    hide GlobMatches, RegexMatches;
    if black.Some? {
      PlainListMatches(black.value, ip, engine);
    }
    if white.Some? {
      PlainListMatches(white.value, ip, engine);
    }
  }
}
