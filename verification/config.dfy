/**
 The key=value configuration reader.

 Each line read from the file loses everything from its first '#', is matched against the POSIX
 extended regular expression

     [[:space:]]*([A-Za-z0-9_\.\+\-]+)[[:space:]]*=[[:space:]]*([A-Za-z0-9_\.\+\-]+)[[:space:]]*

 (unanchored, leftmost-longest), and, when it matches, the two groups are cut out of the line,
 trimmed of blanks and inserted into a std::map that keeps the first value of a key. Lookups
 go through std::map::operator[], which inserts an empty value for an absent key, and convert
 the stored text with the identity (strings) or atoi (ints).

 Inside a POSIX bracket expression a backslash is an ordinary character and a '-' just before
 the closing bracket is literal, so the token characters are the letters, the digits and
 _ \ . + -.

 The group offsets are cut out with std::string::substr(pos, len) whose second argument is
 given the group's END offset, and trim passes the last non-blank index + 1 as a length as
 well. Both are modelled as written (Extraction.AsWritten) next to the evidently intended
 reading (Extraction.Intended).
 */
module Config {
  import opened Wrappers
  import opened Decimal

  // ----- characters and runs -----

  /** The characters of the bracket expression [A-Za-z0-9_\.\+\-]. */
  predicate IsTokenChar(c: char)
  {
    'A' <= c <= 'Z' || 'a' <= c <= 'z' || '0' <= c <= '9'
    || c == '_' || c == '\\' || c == '.' || c == '+' || c == '-'
  }

  predicate Spaces(s: string, i: nat, j: nat)
    requires i <= j <= |s|
  {
    forall k :: i <= k < j ==> IsSpace(s[k])
  }

  predicate Tokens(s: string, i: nat, j: nat)
    requires i <= j <= |s|
  {
    forall k :: i <= k < j ==> IsTokenChar(s[k])
  }

  /** A whole string of token characters. */
  predicate AllTokens(t: string)
  {
    forall k :: 0 <= k < |t| ==> IsTokenChar(t[k])
  }

  /** End of the longest run of [[:space:]] starting at i. */
  function SpaceRun(s: string, i: nat): (j: nat)
    requires i <= |s|
    ensures i <= j <= |s| && Spaces(s, i, j)
    ensures j == |s| || !IsSpace(s[j])
    decreases |s| - i
  {
    if i < |s| && IsSpace(s[i]) then SpaceRun(s, i + 1) else i
  }

  /** End of the longest run of token characters starting at i. */
  function TokenRun(s: string, i: nat): (j: nat)
    requires i <= |s|
    ensures i <= j <= |s| && Tokens(s, i, j)
    ensures j == |s| || !IsTokenChar(s[j])
    decreases |s| - i
  {
    if i < |s| && IsTokenChar(s[i]) then TokenRun(s, i + 1) else i
  }

  // ----- comments -----

  /** discard_comment: the text before the first '#', or the whole line when it has none. */
  function DiscardComment(line: string): (r: string)
    ensures |r| <= |line| && r == line[..|r|]
    ensures '#' !in r
    ensures |r| < |line| ==> line[|r|] == '#'
  {
    if |line| == 0 || line[0] == '#' then ""
    else [line[0]] + DiscardComment(line[1..])
  }

  // ----- the line pattern -----

  /** Offsets reported by regexec for the two parenthesised groups (rm_so / rm_eo). */
  datatype Groups = Groups(keyStart: nat, keyEnd: nat, valStart: nat, valEnd: nat)

  /**
   The text from p on begins with a match of the pattern whose groups are g and whose '=' sits
   at eq: blanks, the key group, blanks, '=', blanks, the value group (the trailing
   [[:space:]]* may match nothing).
   */
  predicate Shaped(s: string, p: nat, g: Groups, eq: nat)
  {
    p <= g.keyStart < g.keyEnd <= eq < g.valStart <= g.valEnd <= |s|
    && g.valStart < g.valEnd && s[eq] == '='
    && Spaces(s, p, g.keyStart) && Tokens(s, g.keyStart, g.keyEnd) && Spaces(s, g.keyEnd, eq)
    && Spaces(s, eq + 1, g.valStart) && Tokens(s, g.valStart, g.valEnd)
  }

  /** The groups lie in the line, in order, and hold token characters only. */
  predicate GroupsIn(s: string, g: Groups)
  {
    g.keyStart < g.keyEnd < g.valStart < g.valEnd <= |s|
    && Tokens(s, g.keyStart, g.keyEnd) && Tokens(s, g.valStart, g.valEnd)
  }

  /**
   The match starting exactly at p, if there is one. Blanks and token characters are disjoint
   and neither contains '=', so each part of the pattern has only one way to go on; the
   longest-match rule picks the longest value run.
   */
  function MatchAt(s: string, p: nat): (r: Option<Groups>)
    requires p <= |s|
    ensures r.Some? ==> GroupsIn(s, r.value)
    ensures r.Some? ==> r.value.valEnd == |s| || !IsTokenChar(s[r.value.valEnd])
  {
    var ks := SpaceRun(s, p);
    var ke := TokenRun(s, ks);
    var eq := SpaceRun(s, ke);
    if ke == ks || eq == |s| || s[eq] != '=' then None
    else
      var vs := SpaceRun(s, eq + 1);
      var ve := TokenRun(s, vs);
      if ve == vs then None
      else Some(Groups(ks, ke, vs, ve))
  }

  /** A match found at p has the shape of the pattern (soundness of MatchAt). */
  lemma MatchAtShaped(s: string, p: nat)
    requires p <= |s| && MatchAt(s, p).Some?
    ensures exists eq :: Shaped(s, p, MatchAt(s, p).value, eq)
  {
    var ke := TokenRun(s, SpaceRun(s, p));
    assert Shaped(s, p, MatchAt(s, p).value, SpaceRun(s, ke));
  }

  /** The match attempted at every start position 0 .. |s|. */
  function Candidates(s: string): (ms: seq<Option<Groups>>)
    ensures |ms| == |s| + 1
    ensures forall q :: 0 <= q <= |s| ==> ms[q] == MatchAt(s, q)
  {
    seq(|s| + 1, q requires 0 <= q <= |s| => MatchAt(s, q))
  }

  /** The first present entry at position p or later. */
  function FirstSome<T>(ms: seq<Option<T>>, p: nat): Option<T>
    requires p <= |ms|
    decreases |ms| - p
  {
    if p == |ms| then None
    else if ms[p].Some? then ms[p]
    else FirstSome(ms, p + 1)
  }

  /** regexec(buf, line, 3, match, 0) with the compiled line pattern: the leftmost match. */
  function Regexec(s: string): (r: Option<Groups>)
    ensures r.Some? ==> GroupsIn(s, r.value)
  {
    var ms := Candidates(s);
    FirstSomeLeftmost(ms, 0);
    FirstSome(ms, 0)
  }

  // ----- std::string pieces -----

  /** std::string::substr(pos, len): out_of_range past the end, the length clipped to the end. */
  function Substr(s: string, pos: nat, len: nat): (r: Result<string>)
    ensures r.Ok? <==> pos <= |s|
    ensures r.Ok? ==> |r.value| <= len && pos + |r.value| <= |s| && r.value == s[pos..pos + |r.value|]
    ensures r.Ok? && |r.value| < len ==> pos + |r.value| == |s|
  {
    if pos > |s| then Err("out_of_range")
    else if len <= |s| - pos then Ok(s[pos..pos + len])
    else Ok(s[pos..])
  }

  /** find_first_not_of(" "): the first index holding something other than a blank. */
  function FirstNonBlank(s: string): (r: Option<nat>)
    ensures r.Some? ==> (r.value < |s| && s[r.value] != ' ' && forall k :: 0 <= k < r.value ==> s[k] == ' ')
    ensures r.None? ==> forall k :: 0 <= k < |s| ==> s[k] == ' '
  {
    if |s| == 0 then None
    else if s[0] != ' ' then Some(0)
    else match FirstNonBlank(s[1..])
      case None => None
      case Some(i) => Some(i + 1)
  }

  /** find_last_not_of(" "): the last index holding something other than a blank. */
  function LastNonBlank(s: string): (r: Option<nat>)
    ensures r.Some? ==> (r.value < |s| && s[r.value] != ' ' && forall k :: r.value < k < |s| ==> s[k] == ' ')
    ensures r.None? ==> forall k :: 0 <= k < |s| ==> s[k] == ' '
  {
    if |s| == 0 then None
    else if s[|s| - 1] != ' ' then Some(|s| - 1)
    else LastNonBlank(s[..|s| - 1])
  }

  predicate AllBlank(s: string)
  {
    forall k :: 0 <= k < |s| ==> s[k] == ' '
  }

  /**
   trim as written: substr(first, last + 1), with first / last the first / last non-blank
   index. A blank or empty string passes npos as the position and substr throws.
   */
  function Trim(s: string): (r: Result<string>)
    ensures r.Err? <==> AllBlank(s)
    ensures r.Ok? ==> |r.value| >= 1 && r.value[0] != ' '
  {
    match (FirstNonBlank(s), LastNonBlank(s))
    case (Some(first), Some(last)) => Substr(s, first, last + 1)
    case _ => Err("out_of_range")
  }

  /** trim as intended: drop the leading and the trailing blanks. */
  function TrimBlanks(s: string): (r: Result<string>)
    ensures r.Err? <==> AllBlank(s)
  {
    match (FirstNonBlank(s), LastNonBlank(s))
    case (Some(first), Some(last)) => Ok(s[first..last + 1])
    case _ => Err("out_of_range")
  }

  // ----- parse_line -----

  /** How parse_line cuts a group out of the line. */
  datatype Extraction =
    | AsWritten  // trim(substr(rm_so, rm_eo)): the end offset is passed as a length
    | Intended   // the group's own text, rm_eo - rm_so characters, trimmed of blanks

  /** The text parse_line keeps for the group [start, end) of a matched line. */
  function Extract(mode: Extraction, s: string, start: nat, end: nat): (r: string)
    requires start < end <= |s| && Tokens(s, start, end)
    ensures |r| >= 1
  {
    match mode
    case AsWritten =>
      var raw := Substr(s, start, end).value;
      assert raw[0] == s[start];
      Trim(raw).value
    case Intended =>
      var raw := Substr(s, start, end - start).value;
      assert raw[0] == s[start];
      TrimBlanks(raw).value
  }

  /**
   The (key, value) pair parse_line inserts for one line read from the file, after its comment
   is discarded; None when the line does not match the pattern.
   */
  function Pair(mode: Extraction, line: string): Option<(string, string)>
  {
    var s := DiscardComment(line);
    match Regexec(s)
    case None => None
    case Some(g) =>
      Some((Extract(mode, s, g.keyStart, g.keyEnd), Extract(mode, s, g.valStart, g.valEnd)))
  }

  // ----- the table -----

  /** std::map::insert: a key already present keeps its value. */
  function Insert(m: map<string, string>, kv: Option<(string, string)>): (r: map<string, string>)
    ensures kv.None? ==> r == m
    ensures kv.Some? ==> r.Keys == m.Keys + {kv.value.0}
    ensures forall k :: k in m ==> k in r && r[k] == m[k]
    ensures kv.Some? && kv.value.0 !in m ==> r[kv.value.0] == kv.value.1
  {
    match kv
    case None => m
    case Some((k, v)) => if k in m then m else m[k := v]
  }

  /** The table after the constructor has read the given lines in order. */
  function Load(mode: Extraction, lines: seq<string>): map<string, string>
  {
    if |lines| == 0 then map[]
    else Insert(Load(mode, lines[..|lines| - 1]), Pair(mode, lines[|lines| - 1]))
  }

  /** The value of a key in a table, if it has one. */
  function Find(m: map<string, string>, key: string): Option<string>
  {
    if key in m then Some(m[key]) else None
  }

  /** Reference reading: the value of the first line, from the top, that defines the key. */
  function FirstValue(mode: Extraction, lines: seq<string>, key: string): Option<string>
  {
    if |lines| == 0 then None
    else match Pair(mode, lines[0])
      case Some((k, v)) => if k == key then Some(v) else FirstValue(mode, lines[1..], key)
      case None => FirstValue(mode, lines[1..], key)
  }

  /**
   read_file: feed every line, comment discarded, to parse_line. Each key of the resulting
   table holds the value of the first line that defines it.
   */
  method ReadFile(mode: Extraction, lines: seq<string>) returns (m: map<string, string>)
    ensures forall key :: Find(m, key) == FirstValue(mode, lines, key)
  {
    m := map[];
    var i := 0;
    while i < |lines|
      invariant 0 <= i <= |lines|
      invariant m == Load(mode, lines[..i])
    {
      LoadStep(mode, lines, i);
      m := Insert(m, Pair(mode, lines[i]));
      i := i + 1;
    }
    assert lines[..i] == lines;
    LoadAllFirstWins(mode, lines);
  }

  /** One more line read is one more parse_line on the table read so far. */
  lemma LoadStep(mode: Extraction, lines: seq<string>, i: nat)
    requires i < |lines|
    ensures Load(mode, lines[..i + 1]) == Insert(Load(mode, lines[..i]), Pair(mode, lines[i]))
  {
    assert lines[..i + 1][..i] == lines[..i];
  }

  // ----- lookups -----

  /** A looked-up value together with the table the lookup leaves behind. */
  datatype Lookup<T> = Lookup(value: T, table: map<string, string>)

  /**
   getAs<std::string>: m_pair[key], which inserts an empty value for an absent key, passed
   through type_cast<std::string> unchanged.
   */
  function GetString(m: map<string, string>, key: string): (r: Lookup<string>)
    ensures key in r.table && r.value == r.table[key]
    ensures r.table.Keys == m.Keys + {key}
    ensures forall k :: k in m ==> r.table[k] == m[k]
    ensures key !in m ==> r.value == ""
  {
    if key in m then Lookup(m[key], m) else Lookup("", m[key := ""])
  }

  /**
   getAs<int>: the same lookup passed through atoi, so a stored numeral reads back as its
   number and an absent key reads as 0.
   */
  function GetInt(m: map<string, string>, key: string): (r: Lookup<int>)
    ensures r.table == GetString(m, key).table
    ensures key in m ==> forall x :: m[key] == Signed(x) ==> r.value == x
    ensures key !in m ==> r.value == 0
  {
    var s := GetString(m, key);
    AtoiOfNumeral(s.value);
    Lookup(Atoi(s.value), s.table)
  }

  // ----- lemmas -----

  lemma AtoiOfNumeral(s: string)
    ensures forall x :: s == Signed(x) ==> Atoi(s) == x
  {
    forall x | s == Signed(x)
      ensures Atoi(s) == x
    {
      assert Signed(x) + "" == Signed(x);
      AtoiOfSigned(x, "");
    }
  }

  /** Dropping the comment twice drops nothing more. */
  lemma DiscardCommentIdempotent(line: string)
    ensures DiscardComment(DiscardComment(line)) == DiscardComment(line)
  {
  }

  /**
   The recogniser is complete: wherever the text from p on has the shape of the pattern,
   MatchAt(s, p) finds the same key group, the same value start and a value at least as long.
   */
  lemma ShapedMatches(s: string, p: nat, g: Groups, eq: nat)
    requires Shaped(s, p, g, eq)
    ensures MatchAt(s, p).Some?
    ensures var m := MatchAt(s, p).value;
      m.keyStart == g.keyStart && m.keyEnd == g.keyEnd && m.valStart == g.valStart
      && m.valEnd >= g.valEnd
  {
    SpaceRunEnds(s, p, g.keyStart);
    assert !IsTokenChar(s[g.keyEnd]) by {
      if g.keyEnd < eq {
        assert IsSpace(s[g.keyEnd]);
      }
    }
    TokenRunEnds(s, g.keyStart, g.keyEnd);
    SpaceRunEnds(s, g.keyEnd, eq);
    SpaceRunEnds(s, eq + 1, g.valStart);
  }

  /** A run of blanks that stops before a non-blank is the longest one. */
  lemma SpaceRunEnds(s: string, i: nat, j: nat)
    requires i <= j <= |s| && Spaces(s, i, j) && (j == |s| || !IsSpace(s[j]))
    ensures SpaceRun(s, i) == j
  {
  }

  /** A run of token characters that stops before another character is the longest one. */
  lemma TokenRunEnds(s: string, i: nat, j: nat)
    requires i <= j <= |s| && Tokens(s, i, j) && (j == |s| || !IsTokenChar(s[j]))
    ensures TokenRun(s, i) == j
  {
  }

  /** The scan from p finds nothing when every entry from p on is absent, and else the first present one. */
  lemma {:induction false} FirstSomeLeftmost<T>(ms: seq<Option<T>>, p: nat)
    requires p <= |ms|
    ensures FirstSome(ms, p).None? ==> forall q :: p <= q < |ms| ==> ms[q].None?
    ensures FirstSome(ms, p).Some? ==>
      exists q :: p <= q < |ms| && ms[q] == FirstSome(ms, p) && forall q' :: p <= q' < q ==> ms[q'].None?
    decreases |ms| - p
  {
    if p < |ms| && ms[p].None? {
      FirstSomeLeftmost(ms, p + 1);
      if FirstSome(ms, p).Some? {
        var q :| p + 1 <= q < |ms| && ms[q] == FirstSome(ms, p) && forall q' :: p + 1 <= q' < q ==> ms[q'].None?;
        assert forall q' :: p <= q' < q ==> ms[q'].None?;
      }
    }
  }

  /** regexec reports no match only when no position starts one, and otherwise the leftmost match. */
  lemma RegexecLeftmost(s: string)
    ensures Regexec(s).None? <==> forall q :: 0 <= q <= |s| ==> MatchAt(s, q).None?
    ensures Regexec(s).Some? ==>
      exists q :: 0 <= q <= |s| && MatchAt(s, q) == Regexec(s) && forall q' :: 0 <= q' < q ==> MatchAt(s, q').None?
  {
    FirstSomeLeftmost(Candidates(s), 0);
  }

  /** A line matches exactly when some position starts a text of the pattern's shape. */
  lemma MatchesIffShaped(s: string)
    ensures Regexec(s).Some? <==> exists p: nat, g, eq: nat :: p <= |s| && Shaped(s, p, g, eq)
  {
    RegexecLeftmost(s);
    if Regexec(s).Some? {
      var q :| 0 <= q <= |s| && MatchAt(s, q).Some?;
      MatchAtShaped(s, q);
      var eq :| Shaped(s, q, MatchAt(s, q).value, eq);
    }
    if exists p: nat, g, eq: nat :: p <= |s| && Shaped(s, p, g, eq) {
      var p: nat, g, eq: nat :| p <= |s| && Shaped(s, p, g, eq);
      ShapedMatches(s, p, g, eq);
    }
  }

  /**
   parse_line yields a pair exactly when the line, comment dropped, has the pattern's shape
   somewhere; the key and value it yields are never empty, in either extraction.
   */
  lemma PairIffShaped(mode: Extraction, line: string)
    ensures var s := DiscardComment(line);
      Pair(mode, line).Some? <==> exists p: nat, g, eq: nat :: p <= |s| && Shaped(s, p, g, eq)
    ensures Pair(mode, line).Some? ==> |Pair(mode, line).value.0| >= 1 && |Pair(mode, line).value.1| >= 1
  {
    MatchesIffShaped(DiscardComment(line));
  }

  /** The table read from any lines holds only non-empty keys with non-empty values. */
  lemma {:induction false} LoadNonEmpty(mode: Extraction, lines: seq<string>)
    ensures forall k :: k in Load(mode, lines) ==> |k| >= 1 && |Load(mode, lines)[k]| >= 1
    decreases |lines|
  {
    if |lines| > 0 {
      var init := lines[..|lines| - 1];
      LoadNonEmpty(mode, init);
      PairIffShaped(mode, lines[|lines| - 1]);
    }
  }

  /** A line without '=' (after its comment is dropped) leaves the table unchanged. */
  lemma NoEqualsNoPair(mode: Extraction, line: string)
    requires '=' !in DiscardComment(line)
    ensures Pair(mode, line) == None
    ensures forall m :: Insert(m, Pair(mode, line)) == m
  {
    var s := DiscardComment(line);
    MatchesIffShaped(s);
    ShapedHasEquals(s);
  }

  lemma ShapedHasEquals(s: string)
    ensures forall p: nat, g, eq: nat :: p <= |s| && Shaped(s, p, g, eq) ==> '=' in s
  {
    assert forall p: nat, g, eq: nat :: p <= |s| && Shaped(s, p, g, eq) ==> s[eq] in s;
  }

  /** A line the pattern does not match leaves the table unchanged. */
  lemma UnmatchedLineIgnored(mode: Extraction, lines: seq<string>, line: string)
    requires Regexec(DiscardComment(line)).None?
    ensures Load(mode, lines + [line]) == Load(mode, lines)
  {
    assert (lines + [line])[..|lines|] == lines;
  }

  /** trim: an all-blank string has no first non-blank; otherwise the result starts there. */
  lemma TrimShape(s: string)
    requires !AllBlank(s)
    ensures TrimBlanks(s).Ok? && Trim(s).Ok?
    ensures var r := TrimBlanks(s).value;
      |r| >= 1 && r[0] != ' ' && r[|r| - 1] != ' '
      && exists i :: 0 <= i <= |s| - |r| && r == s[i..i + |r|] && AllBlank(s[..i]) && AllBlank(s[i + |r|..])
  {
    var first := FirstNonBlank(s).value;
    var last := LastNonBlank(s).value;
    assert first <= last;
    var r := s[first..last + 1];
    assert TrimBlanks(s) == Ok(r);
    assert AllBlank(s[..first]);
    assert AllBlank(s[last + 1..]);
  }

  /** Without leading blanks, trim as written is exactly "drop the trailing blanks". */
  lemma TrimAgrees(s: string)
    requires |s| >= 1 && s[0] != ' '
    ensures Trim(s) == TrimBlanks(s)
  {
  }

  /** Token text followed by blanks trims to the token text, both as written and as intended. */
  lemma TrimTokenBlanks(t: string, b: string)
    requires |t| >= 1 && AllTokens(t)
    requires AllBlank(b)
    ensures Trim(t + b) == Ok(t) && TrimBlanks(t + b) == Ok(t)
  {
    var s := t + b;
    assert s[0] == t[0];
    assert s[|t| - 1] == t[|t| - 1];
    var last := LastNonBlank(s).value;
    assert last == |t| - 1;
    assert s[..|t|] == t;
  }

  lemma TokensSlice(s: string, i: nat, j: nat)
    requires i <= j <= |s| && Tokens(s, i, j)
    ensures AllTokens(s[i..j])
  {
    forall k | 0 <= k < j - i
      ensures IsTokenChar(s[i..j][k])
    {
      assert s[i..j][k] == s[i + k];
    }
  }

  /** As intended, a parsed key or value is the group's own text. */
  lemma IntendedIsGroup(s: string, start: nat, end: nat)
    requires start < end <= |s| && Tokens(s, start, end)
    ensures Extract(Intended, s, start, end) == s[start..end]
  {
    TrimTokenBlanks(s[start..end], "");
    assert s[start..end] + "" == s[start..end];
  }

  /**
   As intended, every inserted key and value is a non-empty run of token characters that the
   line (comment dropped) holds around an '='.
   */
  lemma IntendedPairShape(line: string)
    requires Pair(Intended, line).Some?
    ensures var (k, v) := Pair(Intended, line).value;
      |k| >= 1 && |v| >= 1
      && AllTokens(k) && AllTokens(v)
      && exists p: nat, g, eq: nat ::
        (Shaped(DiscardComment(line), p, g, eq) && k == DiscardComment(line)[g.keyStart..g.keyEnd]
         && v == DiscardComment(line)[g.valStart..g.valEnd])
  {
    var s := DiscardComment(line);
    var g := Regexec(s).value;
    RegexecLeftmost(s);
    IntendedIsGroup(s, g.keyStart, g.keyEnd);
    IntendedIsGroup(s, g.valStart, g.valEnd);
    TokensSlice(s, g.keyStart, g.keyEnd);
    TokensSlice(s, g.valStart, g.valEnd);
    assert Pair(Intended, line) == Some((s[g.keyStart..g.keyEnd], s[g.valStart..g.valEnd]));
    var q :| 0 <= q <= |s| && MatchAt(s, q) == Some(g);
    MatchAtShaped(s, q);
    var eq :| Shaped(s, q, g, eq);
  }

  /**
   The two extractions agree on a line that starts with its key and has nothing but blanks
   after its value: the misused length then only reaches into the trailing blanks.
   */
  lemma AsWrittenAgrees(line: string)
    requires var s := DiscardComment(line);
      Regexec(s).Some? && Regexec(s).value.keyStart == 0 && AllBlank(s[Regexec(s).value.valEnd..])
    ensures Pair(AsWritten, line) == Pair(Intended, line)
  {
    var s := DiscardComment(line);
    var g := Regexec(s).value;
    ExtractAgrees(s, g.keyStart, g.keyEnd);
    ExtractAgrees(s, g.valStart, g.valEnd);
  }

  /** The cut-out text agrees when the group starts the line or only blanks follow it. */
  lemma ExtractAgrees(s: string, start: nat, end: nat)
    requires start < end <= |s| && Tokens(s, start, end)
    requires start == 0 || AllBlank(s[end..])
    ensures Extract(AsWritten, s, start, end) == Extract(Intended, s, start, end)
  {
    IntendedIsGroup(s, start, end);
    TokensSlice(s, start, end);
    var raw := Substr(s, start, end).value;
    var e := start + |raw|;
    assert end <= e <= |s| && raw == s[start..e];
    if start == 0 {
      assert e == end;
      TrimTokenBlanks(s[start..end], "");
      assert s[start..end] + "" == s[start..end];
    } else {
      assert s[start..e] == s[start..end] + s[end..e];
      assert AllBlank(s[end..e]) by {
        assert forall k :: 0 <= k < e - end ==> s[end..e][k] == s[end..][k];
      }
      TrimTokenBlanks(s[start..end], s[end..e]);
    }
  }

  /** With a blank before the key, parse_line as written keeps the '=' in the key. */
  lemma LeadingBlankShiftsKey()
    ensures Pair(AsWritten, " a=b") == Some(("a=", "b"))
    ensures Pair(Intended, " a=b") == Some(("a", "b"))
  {
    SamplePairAsWritten();
    SamplePairIntended();
  }

  lemma SamplePairAsWritten()
    ensures Pair(AsWritten, " a=b") == Some(("a=", "b"))
  {
    SampleGroups();
    SampleAsWritten();
  }

  lemma SamplePairIntended()
    ensures Pair(Intended, " a=b") == Some(("a", "b"))
  {
    var s := " a=b";
    SampleGroups();
    IntendedIsGroup(s, 1, 2);
    IntendedIsGroup(s, 3, 4);
    assert s[1..2] == "a" && s[3..4] == "b";
  }

  lemma SampleGroups()
    ensures DiscardComment(" a=b") == " a=b"
    ensures Regexec(" a=b") == Some(Groups(1, 2, 3, 4))
  {
    var s := " a=b";
    assert DiscardComment(s) == s;
    SampleMatch();
    assert Candidates(s)[0] == Some(Groups(1, 2, 3, 4));
  }

  lemma SampleMatch()
    ensures MatchAt(" a=b", 0) == Some(Groups(1, 2, 3, 4))
  {
    var s := " a=b";
    assert SpaceRun(s, 0) == 1 by {
      assert IsSpace(s[0]) && !IsSpace(s[1]);
    }
    assert TokenRun(s, 1) == 2 by {
      assert IsTokenChar(s[1]) && !IsTokenChar(s[2]);
    }
    assert SpaceRun(s, 2) == 2;
    assert SpaceRun(s, 3) == 3;
    assert TokenRun(s, 3) == 4;
  }

  lemma SampleAsWritten()
    ensures Extract(AsWritten, " a=b", 1, 2) == "a="
    ensures Extract(AsWritten, " a=b", 3, 4) == "b"
  {
    var s := " a=b";
    assert s[1..3] == "a=";
    assert s[3..] == "b";
    assert Substr(s, 1, 2) == Ok("a=");
    assert Substr(s, 3, 4) == Ok("b");
    TrimTokenBlanks("b", "");
    assert "b" + "" == "b";
    assert FirstNonBlank("a=") == Some(0);
    assert LastNonBlank("a=") == Some(1);
    assert "a="[0..2] == "a=";
  }

  /** trim as written keeps the trailing blanks of a string that also has leading ones. */
  lemma TrimKeepsTrailingBlanks()
    ensures Trim("  ab  ") == Ok("ab  ")
    ensures TrimBlanks("  ab  ") == Ok("ab")
  {
    var s := "  ab  ";
    assert FirstNonBlank(s) == Some(2);
    assert LastNonBlank(s) == Some(3);
    assert s[2..6] == "ab  ";
    assert s[2..4] == "ab";
  }

  /** Appending a line only decides keys that the earlier lines left undecided. */
  lemma {:induction false} FirstValueSnoc(mode: Extraction, lines: seq<string>, line: string, key: string)
    ensures FirstValue(mode, lines + [line], key) ==
      if FirstValue(mode, lines, key).Some? then FirstValue(mode, lines, key)
      else Find(Insert(map[], Pair(mode, line)), key)
    decreases |lines|
  {
    if |lines| == 0 {
      assert lines + [line] == [line];
      assert [line][1..] == [];
    } else {
      assert (lines + [line])[0] == lines[0];
      assert (lines + [line])[1..] == lines[1..] + [line];
      FirstValueSnoc(mode, lines[1..], line, key);
    }
  }

  /** The table read from the lines holds, for each key, the value of its first definition. */
  lemma {:induction false} LoadFirstWins(mode: Extraction, lines: seq<string>, key: string)
    ensures Find(Load(mode, lines), key) == FirstValue(mode, lines, key)
    decreases |lines|
  {
    if |lines| > 0 {
      var init := lines[..|lines| - 1];
      var last := lines[|lines| - 1];
      assert init + [last] == lines;
      LoadFirstWins(mode, init, key);
      FirstValueSnoc(mode, init, last, key);
    }
  }

  lemma LoadAllFirstWins(mode: Extraction, lines: seq<string>)
    ensures forall key :: Find(Load(mode, lines), key) == FirstValue(mode, lines, key)
  {
    forall key
      ensures Find(Load(mode, lines), key) == FirstValue(mode, lines, key)
    {
      LoadFirstWins(mode, lines, key);
    }
  }

  /** getAs<std::string> after reading the lines: the first definition, or "" for none. */
  lemma GetStringAfterRead(mode: Extraction, lines: seq<string>, key: string)
    ensures GetString(Load(mode, lines), key).value ==
      match FirstValue(mode, lines, key) case Some(v) => v case None => ""
  {
    LoadFirstWins(mode, lines, key);
  }

  /** A second lookup of the same key returns the same value and changes nothing. */
  lemma GetStringStable(m: map<string, string>, key: string)
    ensures GetString(GetString(m, key).table, key) == GetString(m, key)
  {
  }
}
