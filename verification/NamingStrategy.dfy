/** Column naming: the two regular-expression passes of snakeCase, and the one-pass rule they amount to on ASCII. */
module NamingStrategy {
  import opened Common

  predicate IsUpper(c: char) { 'A' <= c <= 'Z' }

  predicate IsLower(c: char) { 'a' <= c <= 'z' }

  predicate IsLowerOrDigit(c: char) { IsLower(c) || '0' <= c <= '9' }

  function ToLower(c: char): char {
    if IsUpper(c) then c - 'A' + 'a' else c
  }

  function LowerAll(s: string): string {
    seq(|s|, i requires 0 <= i < |s| => ToLower(s[i]))
  }

  // replace(/([a-z0-9])([A-Z])/g, '$1_$2'): matches do not overlap, the scan goes on after each one
  function SplitWords(s: string): string {
    if |s| < 2 then s
    else if IsLowerOrDigit(s[0]) && IsUpper(s[1]) then [s[0], '_', s[1]] + SplitWords(s[2..])
    else [s[0]] + SplitWords(s[1..])
  }

  // replace(/([A-Z])([A-Z][a-z])/g, '$1_$2')
  function SplitAcronyms(s: string): string {
    if |s| < 3 then s
    else if IsUpper(s[0]) && IsUpper(s[1]) && IsLower(s[2]) then [s[0], '_', s[1], s[2]] + SplitAcronyms(s[3..])
    else [s[0]] + SplitAcronyms(s[1..])
  }

  function SnakeCase(s: string): string {
    LowerAll(SplitAcronyms(SplitWords(s)))
  }

  /******* One pass *******/

  // A word starts at s[1]: after a lower-case letter or digit, or as the last capital before a lower-case letter.
  predicate Boundary(s: string) {
    && |s| >= 2 && IsUpper(s[1])
    && (IsLowerOrDigit(s[0]) || (IsUpper(s[0]) && |s| >= 3 && IsLower(s[2])))
  }

  function OnePass(s: string): string {
    if |s| == 0 then ""
    else if Boundary(s) then [ToLower(s[0]), '_'] + OnePass(s[1..])
    else [ToLower(s[0])] + OnePass(s[1..])
  }

  // The first pass keeps the first character, and what follows it unless a word starts there.
  lemma SplitWordsHead(s: string)
    requires |s| > 0
    ensures
      var t := SplitWords(s);
      && |t| >= |s| && t[0] == s[0]
      && (|s| >= 2 ==> t[1] == if IsLowerOrDigit(s[0]) && IsUpper(s[1]) then '_' else s[1])
  {
    if |s| >= 2 && !(IsLowerOrDigit(s[0]) && IsUpper(s[1])) { SplitWordsHead(s[1..]); }
    else if |s| > 2 { SplitWordsHead(s[2..]); }
  }

  // Scanning on after a match in the first pass loses nothing: no match can start at its second character.
  lemma {:induction false} SplitWordsStep(s: string)
    requires |s| >= 2
    ensures SplitWords(s) == if IsLowerOrDigit(s[0]) && IsUpper(s[1]) then [s[0], '_'] + SplitWords(s[1..])
                             else [s[0]] + SplitWords(s[1..])
  {
    if IsLowerOrDigit(s[0]) && IsUpper(s[1]) {
      if |s| == 2 { assert SplitWords(s[2..]) == ""; }
      else { assert s[1..][1..] == s[2..]; }
    }
  }

  // Nor in the second pass: inside a match no other match starts.
  lemma {:induction false} SplitAcronymsStep(s: string)
    requires |s| >= 1
    ensures SplitAcronyms(s) == if |s| >= 3 && IsUpper(s[0]) && IsUpper(s[1]) && IsLower(s[2])
                                then [s[0], '_'] + SplitAcronyms(s[1..]) else [s[0]] + SplitAcronyms(s[1..])
  {
    if |s| >= 3 && IsUpper(s[0]) && IsUpper(s[1]) && IsLower(s[2]) {
      var t := s[1..];
      assert SplitAcronyms(t) == [t[0]] + SplitAcronyms(t[1..]);
      var u := t[1..];
      assert u[0] == s[2] && u[1..] == s[3..];
      assert SplitAcronyms(u) == [u[0]] + SplitAcronyms(u[1..]);
    }
  }

  // A word boundary of the first pass: the second pass inserts nothing next to the underscore.
  lemma AcronymsAfterUnderscore(c: char, t: string)
    requires IsLowerOrDigit(c)
    ensures SplitAcronyms([c, '_'] + t) == [c, '_'] + SplitAcronyms(t)
  {
    var w := [c, '_'] + t;
    SplitAcronymsStep(w);
    assert w[1..] == ['_'] + t;
    SplitAcronymsStep(['_'] + t);
    assert (['_'] + t)[1..] == t;
  }

  lemma LowerAllConcat(a: string, b: string)
    ensures LowerAll(a + b) == LowerAll(a) + LowerAll(b)
  {
  }

  lemma LowerAfterUnderscore(c: char, t: string)
    requires IsLowerOrDigit(c)
    ensures LowerAll(SplitAcronyms([c, '_'] + t)) == [ToLower(c), '_'] + LowerAll(SplitAcronyms(t))
  {
    AcronymsAfterUnderscore(c, t);
    LowerAllConcat([c, '_'], SplitAcronyms(t));
    assert LowerAll([c, '_']) == [ToLower(c), '_'];
  }

  lemma FirstPassBoundary(s: string)
    requires |s| >= 2 && IsLowerOrDigit(s[0]) && IsUpper(s[1])
    ensures SnakeCase(s) == [ToLower(s[0]), '_'] + SnakeCase(s[1..])
  {
    SplitWordsStep(s);
    LowerAfterUnderscore(s[0], SplitWords(s[1..]));
  }

  // Elsewhere the second pass decides, on the characters the first pass has left next to each other.
  lemma SecondPassBoundary(s: string)
    requires |s| >= 2 && !(IsLowerOrDigit(s[0]) && IsUpper(s[1]))
    ensures SnakeCase(s) == (if Boundary(s) then [ToLower(s[0]), '_'] else [ToLower(s[0])]) + SnakeCase(s[1..])
  {
    var t := SplitWords(s[1..]);
    SplitWordsStep(s);
    SplitWordsHead(s[1..]);
    var w := [s[0]] + t;
    SplitAcronymsStep(w);
    assert w[1..] == t && w[1] == s[1];
    var split := |w| >= 3 && IsUpper(w[0]) && IsUpper(w[1]) && IsLower(w[2]);
    assert split <==> Boundary(s) by { SecondPassSees(s, t); }
    if split { assert LowerAll([s[0], '_'] + SplitAcronyms(t)) == [ToLower(s[0]), '_'] + LowerAll(SplitAcronyms(t)); }
    else { assert LowerAll([s[0]] + SplitAcronyms(t)) == [ToLower(s[0])] + LowerAll(SplitAcronyms(t)); }
  }

  lemma SecondPassSees(s: string, t: string)
    requires |s| >= 2 && !(IsLowerOrDigit(s[0]) && IsUpper(s[1])) && t == SplitWords(s[1..])
    ensures |t| >= 2 && IsUpper(s[0]) && IsUpper(t[0]) && IsLower(t[1]) <==> Boundary(s)
  {
    SplitWordsHead(s[1..]);
    if |s| == 2 { assert t == s[1..]; }
    else { assert s[1..][1] == s[2]; }
  }

  /** The two passes followed by lower-casing are the one-pass rule. */
  lemma {:induction false} SnakeCaseIsOnePass(s: string)
    ensures SnakeCase(s) == OnePass(s)
    decreases |s|
  {
    if |s| == 1 { assert SplitAcronyms(s) == s && s[1..] == ""; }
    else if |s| >= 2 {
      SnakeCaseIsOnePass(s[1..]);
      if IsLowerOrDigit(s[0]) && IsUpper(s[1]) { FirstPassBoundary(s); } else { SecondPassBoundary(s); }
    }
  }

  /**
   Where words start, in characters: an underscore goes before a capital that follows a lower-case letter or a digit, or
   that follows a capital and precedes a lower-case letter; capitals become small and everything else stays.
   */
  lemma SnakeCaseSplitsWords(s: string)
    requires |s| > 0
    ensures
      var wordStarts :=
        && |s| >= 2 && 'A' <= s[1] <= 'Z'
        && ('a' <= s[0] <= 'z' || '0' <= s[0] <= '9' || ('A' <= s[0] <= 'Z' && |s| >= 3 && 'a' <= s[2] <= 'z'));
      var first := if 'A' <= s[0] <= 'Z' then (s[0] as int + 32) as char else s[0];
      SnakeCase(s) == [first] + (if wordStarts then "_" else "") + SnakeCase(s[1..])
  {
    SnakeCaseIsOnePass(s);
    SnakeCaseIsOnePass(s[1..]);
  }

  /******* Consequences *******/

  predicate NoUpper(s: string) {
    forall c | c in s :: !IsUpper(c)
  }

  lemma {:induction false} OnePassHasNoUpper(s: string)
    ensures NoUpper(OnePass(s))
  {
    if |s| > 0 { OnePassHasNoUpper(s[1..]); }
  }

  lemma {:induction false} OnePassKeepsLower(s: string)
    requires NoUpper(s)
    ensures OnePass(s) == s
  {
    if |s| > 0 {
      assert s[0] in s;
      assert |s| >= 2 ==> s[1] in s;
      assert NoUpper(s[1..]) by { forall c | c in s[1..] ensures !IsUpper(c) { assert c in s; } }
      OnePassKeepsLower(s[1..]);
    }
  }

  /** Naming an already named column changes nothing. */
  lemma SnakeCaseIdempotent(s: string)
    ensures SnakeCase(SnakeCase(s)) == SnakeCase(s)
  {
    SnakeCaseIsOnePass(s);
    SnakeCaseIsOnePass(OnePass(s));
    OnePassHasNoUpper(s);
    OnePassKeepsLower(OnePass(s));
  }

  function WithoutUnderscores(s: string): string {
    if |s| == 0 then "" else (if s[0] == '_' then "" else [s[0]]) + WithoutUnderscores(s[1..])
  }

  lemma WithoutUnderscoresCons(c: char, s: string)
    ensures WithoutUnderscores([c] + s) == (if c == '_' then "" else [c]) + WithoutUnderscores(s)
  {
    assert ([c] + s)[1..] == s;
  }

  lemma WithoutUnderscoresBoundary(c: char, s: string)
    ensures WithoutUnderscores([c, '_'] + s) == (if c == '_' then "" else [c]) + WithoutUnderscores(s)
  {
    assert [c, '_'] + s == [c] + (['_'] + s);
    WithoutUnderscoresCons(c, ['_'] + s);
    WithoutUnderscoresCons('_', s);
  }

  lemma OnePassHead(s: string)
    requires |s| > 0
    ensures
      var c := ToLower(s[0]);
      WithoutUnderscores(OnePass(s)) == (if c == '_' then "" else [c]) + WithoutUnderscores(OnePass(s[1..]))
  {
    if Boundary(s) { WithoutUnderscoresBoundary(ToLower(s[0]), OnePass(s[1..])); }
    else { WithoutUnderscoresCons(ToLower(s[0]), OnePass(s[1..])); }
  }

  lemma LowerAllHead(s: string)
    requires |s| > 0
    ensures LowerAll(s) == [ToLower(s[0])] + LowerAll(s[1..])
  {
  }

  lemma {:induction false} OnePassOnlyInserts(s: string)
    ensures WithoutUnderscores(OnePass(s)) == WithoutUnderscores(LowerAll(s))
  {
    if |s| > 0 {
      OnePassOnlyInserts(s[1..]);
      OnePassHead(s);
      LowerAllHead(s);
      WithoutUnderscoresCons(ToLower(s[0]), LowerAll(s[1..]));
    }
  }

  /** Only underscores are inserted: without underscores the result is the lower-cased input. */
  lemma SnakeCaseOnlyInsertsUnderscores(s: string)
    ensures WithoutUnderscores(SnakeCase(s)) == WithoutUnderscores(LowerAll(s))
  {
    SnakeCaseIsOnePass(s);
    OnePassOnlyInserts(s);
  }

  // No word starts at an underscore.
  lemma BoundaryOfJoin(a: string, b: string)
    requires |a| > 0
    ensures Boundary(a + "_" + b) <==> Boundary(a)
  {
    var s := a + "_" + b;
    assert s[1] == if |a| >= 2 then a[1] else '_';
    if |a| >= 2 { assert s[2] == if |a| >= 3 then a[2] else '_'; }
  }

  lemma {:induction false} OnePassOfJoin(a: string, b: string)
    ensures OnePass(a + "_" + b) == OnePass(a) + "_" + OnePass(b)
  {
    var s := a + "_" + b;
    if |a| == 0 {
      assert s[0] == '_' && s[1..] == b;
    } else {
      BoundaryOfJoin(a, b);
      OnePassOfJoin(a[1..], b);
      assert s[0] == a[0] && s[1..] == a[1..] + "_" + b;
    }
  }

  // parts.join('_')
  function Joined(parts: seq<string>): string {
    if |parts| == 0 then ""
    else if |parts| == 1 then parts[0]
    else Joined(parts[..|parts| - 1]) + "_" + parts[|parts| - 1]
  }

  // The parts in order with an underscore between neighbours
  lemma JoinedMeans(parts: seq<string>, part: string)
    ensures Joined([part]) == part
    ensures |parts| > 0 ==> Joined(parts + [part]) == Joined(parts) + "_" + part
  {
    assert (parts + [part])[..|parts|] == parts;
  }

  function SnakeAll(parts: seq<string>): seq<string> {
    seq(|parts|, i requires 0 <= i < |parts| => SnakeCase(parts[i]))
  }

  /** Naming a joined path joins the named parts. */
  lemma {:induction false} SnakeCaseOfJoined(parts: seq<string>)
    ensures SnakeCase(Joined(parts)) == Joined(SnakeAll(parts))
  {
    if |parts| >= 2 {
      var n := |parts| - 1;
      SnakeCaseOfJoined(parts[..n]);
      assert SnakeAll(parts)[..n] == SnakeAll(parts[..n]);
      SnakeCaseIsOnePass(Joined(parts[..n]) + "_" + parts[n]);
      SnakeCaseIsOnePass(Joined(parts[..n]));
      SnakeCaseIsOnePass(parts[n]);
      OnePassOfJoin(Joined(parts[..n]), parts[n]);
    }
  }

  function ColumnName(propertyName: string, customName: string, embeddedPrefixes: seq<string>): string {
    if customName != "" then customName else SnakeCase(Joined(embeddedPrefixes + [propertyName]))
  }

  function JoinColumnName(relationName: string, referencedColumnName: string): string {
    SnakeCase(relationName + "_" + referencedColumnName)
  }

  function JoinTableColumnName(tableName: string, propertyName: string, columnName: Option<string>): string {
    SnakeCase(tableName + "_" + if columnName.Some? then columnName.value else propertyName)
  }

  /** A join table's column is named after the table and the column, or the property when no column is named. */
  lemma JoinTableColumnNameJoinsParts(tableName: string, propertyName: string, columnName: Option<string>)
    ensures JoinTableColumnName(tableName, propertyName, columnName)
            == SnakeCase(tableName) + "_"
               + if columnName == None then SnakeCase(propertyName) else SnakeCase(columnName.value)
  {
    var column := if columnName.Some? then columnName.value else propertyName;
    JoinColumnNameJoinsParts(tableName, column);
  }

  /** A generated column name is the `_`-join of its snake-cased path; a custom name is used as it is. */
  lemma ColumnNameJoinsParts(propertyName: string, customName: string, embeddedPrefixes: seq<string>)
    ensures ColumnName(propertyName, customName, embeddedPrefixes) ==
            if customName != "" then customName else Joined(SnakeAll(embeddedPrefixes) + [SnakeCase(propertyName)])
  {
    SnakeCaseOfJoined(embeddedPrefixes + [propertyName]);
    assert SnakeAll(embeddedPrefixes + [propertyName]) == SnakeAll(embeddedPrefixes) + [SnakeCase(propertyName)];
  }

  /** A join column is named after the relation and the referenced column, each snake-cased on its own. */
  lemma JoinColumnNameJoinsParts(relationName: string, referencedColumnName: string)
    ensures JoinColumnName(relationName, referencedColumnName)
            == SnakeCase(relationName) + "_" + SnakeCase(referencedColumnName)
  {
    SnakeCaseIsOnePass(relationName + "_" + referencedColumnName);
    SnakeCaseIsOnePass(relationName);
    SnakeCaseIsOnePass(referencedColumnName);
    OnePassOfJoin(relationName, referencedColumnName);
  }
}
