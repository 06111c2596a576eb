/** DatabaseUtils.getSqlStatementType: what kind of statement a text is, by its first three letters. */
module SqlStatements {
  datatype StatementType =
    SELECT | UPDATE | ATTACH | BEGIN | COMMIT | ABORT | PRAGMA | DDL | UNPREPARED | OTHER

  // String.trim removes every character up to the space.
  predicate Blank(c: char) {
    c <= ' '
  }

  function TrimStart(s: string): (t: string)
    ensures |t| <= |s|
  {
    if s != [] && Blank(s[0]) then TrimStart(s[1..]) else s
  }

  function TrimEnd(s: string): (t: string)
    ensures |t| <= |s|
  {
    if s != [] && Blank(s[|s| - 1]) then TrimEnd(s[..|s| - 1]) else s
  }

  function Trim(s: string): string {
    TrimEnd(TrimStart(s))
  }

  // The characters whose upper case is a letter from A to Z: two of them are outside ASCII.
  function Upper(c: char): char {
    if 'a' <= c <= 'z' then c - 32 as char
    else if c == '\U{0131}' then 'I'
    else if c == '\U{017F}' then 'S'
    else c
  }

  function TypeOfPrefix(prefix: string): StatementType {
    if prefix == "SEL" then SELECT
    else if prefix in ["INS", "UPD", "REP", "DEL"] then UPDATE
    else if prefix == "ATT" then ATTACH
    else if prefix in ["COM", "END"] then COMMIT
    else if prefix == "ROL" then ABORT
    else if prefix == "BEG" then BEGIN
    else if prefix == "PRA" then PRAGMA
    else if prefix in ["CRE", "DRO", "ALT"] then DDL
    else if prefix in ["ANA", "DET"] then UNPREPARED
    else OTHER
  }

  function SqlStatementType(sql: string): StatementType {
    var s := Trim(sql);
    if |s| < 3 then OTHER else TypeOfPrefix([Upper(s[0]), Upper(s[1]), Upper(s[2])])
  }

  lemma {:induction false} TrimmedStart(blanks: string, s: string)
    requires forall c :: c in blanks ==> Blank(c)
    ensures TrimStart(blanks + s) == TrimStart(s)
  {
    if blanks == [] {
      assert blanks + s == s;
    } else {
      assert (blanks + s)[1..] == blanks[1..] + s;
      TrimmedStart(blanks[1..], s);
    }
  }

  lemma {:induction false} TrimmedEnd(s: string, blanks: string)
    requires forall c :: c in blanks ==> Blank(c)
    ensures TrimEnd(s + blanks) == TrimEnd(s)
  {
    if blanks == [] {
      assert s + blanks == s;
    } else {
      assert (s + blanks)[..|s + blanks| - 1] == s + blanks[..|blanks| - 1];
      TrimmedEnd(s, blanks[..|blanks| - 1]);
    }
  }

  // Blanks behind a text do not change what stands at its start.
  lemma {:induction false} StartOfPadded(s: string, blanks: string)
    requires forall c :: c in blanks ==> Blank(c)
    ensures TrimEnd(TrimStart(s + blanks)) == TrimEnd(TrimStart(s))
  {
    if s == [] {
      assert s + blanks == blanks && blanks == blanks + [];
      TrimmedStart(blanks, []);
    } else if Blank(s[0]) {
      assert (s + blanks)[1..] == s[1..] + blanks;
      StartOfPadded(s[1..], blanks);
    } else {
      TrimmedEnd(s, blanks);
    }
  }

  ghost predicate AllBlank(s: string) {
    forall c :: c in s ==> c <= ' '
  }

  /** Blanks around a statement do not matter. */
  lemma PaddingKeepsType(before: string, sql: string, after: string)
    requires AllBlank(before) && AllBlank(after)
    ensures SqlStatementType(before + sql + after) == SqlStatementType(sql)
  {
    assert before + sql + after == before + (sql + after);
    TrimmedStart(before, sql + after);
    StartOfPadded(sql, after);
  }

  // The same text but for the case of its letters.
  ghost predicate SameButCase(s: string, t: string) {
    |s| == |t| && forall i :: 0 <= i < |s| ==> Upper(s[i]) == Upper(t[i])
  }

  lemma {:induction false} CaseTrimmedStart(s: string, t: string)
    requires SameButCase(s, t)
    ensures SameButCase(TrimStart(s), TrimStart(t))
  {
    if s != [] {
      assert Upper(s[0]) == Upper(t[0]);
      CaseTrimmedStart(s[1..], t[1..]);
    }
  }

  lemma {:induction false} CaseTrimmedEnd(s: string, t: string)
    requires SameButCase(s, t)
    ensures SameButCase(TrimEnd(s), TrimEnd(t))
  {
    if s != [] {
      var n := |s| - 1;
      assert Upper(s[n]) == Upper(t[n]);
      CaseTrimmedEnd(s[..n], t[..n]);
    }
  }

  /** The case of the letters does not matter. */
  lemma CaseKeepsType(s: string, t: string)
    requires SameButCase(s, t)
    ensures SqlStatementType(s) == SqlStatementType(t)
  {
    CaseTrimmedStart(s, t);
    CaseTrimmedEnd(TrimStart(s), TrimStart(t));
  }

  // ---------------------------------------------------------------- the words

  // The text begins with this word, whatever its case and the blanks before it.
  ghost predicate Says(sql: string, word: string) {
    exists before: string, w: string, after: string ::
      AllBlank(before) && SameButCase(w, word) && sql == before + w + after
  }

  // Trimmed at its end, a text keeps what it begins with up to a character that is not blank.
  lemma {:induction false} TrimEndKeeps(s: string, n: nat)
    requires 0 < n <= |s| && !Blank(s[n - 1])
    ensures n <= |TrimEnd(s)| && TrimEnd(s)[..n] == s[..n]
    decreases |s|
  {
    if Blank(s[|s| - 1]) {
      TrimEndKeeps(s[..|s| - 1], n);
      assert s[..|s| - 1][..n] == s[..n];
    }
  }

  lemma TrimKeeps(before: string, w: string, after: string)
    requires AllBlank(before) && |w| >= 3 && !Blank(w[0]) && !Blank(w[2])
    ensures |Trim(before + w + after)| >= 3 && Trim(before + w + after)[..3] == w[..3]
  {
    assert before + w + after == before + (w + after);
    TrimmedStart(before, w + after);
    TrimEndKeeps(w + after, 3);
    assert (w + after)[..3] == w[..3];
  }

  /** Two letters outside ASCII have one of ASCII for their upper case. */
  lemma OddLetters(sql: string)
    requires |sql| >= 3 && sql[2] > ' '
    ensures sql[0] == '\U{0131}' && sql[1] in "nN" && sql[2] in "sS" ==> SqlStatementType(sql) == UPDATE
    ensures sql[0] == '\U{017F}' && sql[1] in "eE" && sql[2] in "lL" ==> SqlStatementType(sql) == SELECT
  {
    if sql[0] > ' ' {
      TrimEndKeeps(sql, 3);
      var s := Trim(sql);
      assert s[0] == s[..3][0] && s[1] == s[..3][1] && s[2] == s[..3][2];
    }
  }

  // No letter is a blank in the other case.
  lemma SameCaseBlank(c: char, d: char)
    requires Upper(c) == Upper(d)
    ensures Blank(c) <==> Blank(d)
  {
  }

  lemma TypeOfWord(sql: string, word: string, kind: StatementType)
    requires |word| >= 3 && !Blank(word[0]) && !Blank(word[2])
    requires TypeOfPrefix([Upper(word[0]), Upper(word[1]), Upper(word[2])]) == kind
    ensures Says(sql, word) ==> SqlStatementType(sql) == kind
  {
    if Says(sql, word) {
      var before: string, w: string, after: string :|
        AllBlank(before) && SameButCase(w, word) && sql == before + w + after;
      SameCaseBlank(w[0], word[0]);
      SameCaseBlank(w[2], word[2]);
      TrimKeeps(before, w, after);
      var s := Trim(sql);
      assert s[0] == s[..3][0] == w[..3][0] && s[1] == s[..3][1] == w[..3][1] && s[2] == s[..3][2] == w[..3][2];
      hide Trim, TypeOfPrefix;
    }
  }

  /** The statements that a session takes over, by the word they begin with. */
  lemma TransactionStatements(sql: string)
    ensures Says(sql, "BEGIN") ==> SqlStatementType(sql) == BEGIN
    ensures Says(sql, "COMMIT") ==> SqlStatementType(sql) == COMMIT
    ensures Says(sql, "END") ==> SqlStatementType(sql) == COMMIT
    ensures Says(sql, "ROLLBACK") ==> SqlStatementType(sql) == ABORT
  {
    hide SqlStatementType, Says;
    assert Says(sql, "BEGIN") ==> SqlStatementType(sql) == BEGIN by {
      TypeOfWord(sql, "BEGIN", BEGIN);
    }
    assert Says(sql, "COMMIT") ==> SqlStatementType(sql) == COMMIT by {
      TypeOfWord(sql, "COMMIT", COMMIT);
    }
    assert Says(sql, "END") ==> SqlStatementType(sql) == COMMIT by {
      TypeOfWord(sql, "END", COMMIT);
    }
    assert Says(sql, "ROLLBACK") ==> SqlStatementType(sql) == ABORT by {
      TypeOfWord(sql, "ROLLBACK", ABORT);
    }
  }

  /** Those that are cached. */
  lemma CachedStatements(sql: string)
    ensures Says(sql, "SELECT") ==> SqlStatementType(sql) == SELECT
    ensures Says(sql, "INSERT") ==> SqlStatementType(sql) == UPDATE
    ensures Says(sql, "UPDATE") ==> SqlStatementType(sql) == UPDATE
    ensures Says(sql, "REPLACE") ==> SqlStatementType(sql) == UPDATE
    ensures Says(sql, "DELETE") ==> SqlStatementType(sql) == UPDATE
  {
    hide SqlStatementType, Says;
    assert Says(sql, "SELECT") ==> SqlStatementType(sql) == SELECT by {
      TypeOfWord(sql, "SELECT", SELECT);
    }
    assert Says(sql, "INSERT") ==> SqlStatementType(sql) == UPDATE by {
      TypeOfWord(sql, "INSERT", UPDATE);
    }
    assert Says(sql, "UPDATE") ==> SqlStatementType(sql) == UPDATE by {
      TypeOfWord(sql, "UPDATE", UPDATE);
    }
    assert Says(sql, "REPLACE") ==> SqlStatementType(sql) == UPDATE by {
      TypeOfWord(sql, "REPLACE", UPDATE);
    }
    assert Says(sql, "DELETE") ==> SqlStatementType(sql) == UPDATE by {
      TypeOfWord(sql, "DELETE", UPDATE);
    }
  }

  /** Those about the database itself, and those that define it. */
  lemma SchemaStatements(sql: string)
    ensures Says(sql, "ATTACH") ==> SqlStatementType(sql) == ATTACH
    ensures Says(sql, "DETACH") ==> SqlStatementType(sql) == UNPREPARED
    ensures Says(sql, "ANALYZE") ==> SqlStatementType(sql) == UNPREPARED
    ensures Says(sql, "PRAGMA") ==> SqlStatementType(sql) == PRAGMA
  {
    hide SqlStatementType, Says;
    assert Says(sql, "ATTACH") ==> SqlStatementType(sql) == ATTACH by {
      TypeOfWord(sql, "ATTACH", ATTACH);
    }
    assert Says(sql, "DETACH") ==> SqlStatementType(sql) == UNPREPARED by {
      TypeOfWord(sql, "DETACH", UNPREPARED);
    }
    assert Says(sql, "ANALYZE") ==> SqlStatementType(sql) == UNPREPARED by {
      TypeOfWord(sql, "ANALYZE", UNPREPARED);
    }
    assert Says(sql, "PRAGMA") ==> SqlStatementType(sql) == PRAGMA by {
      TypeOfWord(sql, "PRAGMA", PRAGMA);
    }
  }

  lemma DefinitionStatements(sql: string)
    ensures Says(sql, "CREATE") ==> SqlStatementType(sql) == DDL
    ensures Says(sql, "DROP") ==> SqlStatementType(sql) == DDL
    ensures Says(sql, "ALTER") ==> SqlStatementType(sql) == DDL
  {
    hide SqlStatementType, Says;
    assert Says(sql, "CREATE") ==> SqlStatementType(sql) == DDL by {
      TypeOfWord(sql, "CREATE", DDL);
    }
    assert Says(sql, "DROP") ==> SqlStatementType(sql) == DDL by {
      TypeOfWord(sql, "DROP", DDL);
    }
    assert Says(sql, "ALTER") ==> SqlStatementType(sql) == DDL by {
      TypeOfWord(sql, "ALTER", DDL);
    }
  }

  /** Some that have no type of their own. */
  lemma OtherStatements(sql: string)
    ensures Says(sql, "SAVEPOINT") ==> SqlStatementType(sql) == OTHER
    ensures Says(sql, "RELEASE") ==> SqlStatementType(sql) == OTHER
    ensures Says(sql, "VACUUM") ==> SqlStatementType(sql) == OTHER
  {
    hide SqlStatementType, Says;
    assert Says(sql, "SAVEPOINT") ==> SqlStatementType(sql) == OTHER by {
      TypeOfWord(sql, "SAVEPOINT", OTHER);
    }
    assert Says(sql, "RELEASE") ==> SqlStatementType(sql) == OTHER by {
      TypeOfWord(sql, "RELEASE", OTHER);
    }
    assert Says(sql, "VACUUM") ==> SqlStatementType(sql) == OTHER by {
      TypeOfWord(sql, "VACUUM", OTHER);
    }
  }
}
