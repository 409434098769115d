/** What Keyspace.convert promises about the map it builds: its order, its
    keys, which lines it skips, which lines abort it, and how a well-formed
    line reads back. */
module KeyspaceFacts {
  import opened JavaLang
  import TreeMap
  import opened RedisInfo

  /** Every entry is filed under its own record's db number. */
  predicate Keyed(m: seq<(int32, Stats)>)
  {
    forall k :: 0 <= k < |m| ==> m[k].0 == m[k].1.no
  }

  lemma {:induction false} PutKeyed(m: seq<(int32, Stats)>, st: Stats)
    requires Keyed(m)
    ensures Keyed(TreeMap.Put(m, st.no, st))
  {
    if m != [] && st.no > m[0].0 {
      PutKeyed(m[1..], st);
      assert TreeMap.Put(m, st.no, st) == [m[0]] + TreeMap.Put(m[1..], st.no, st);
    }
  }

  /** The map is in ascending db-number order and every key is its record's `no`. */
  lemma {:induction false} ConvertLinesShape(lines: seq<string>)
    ensures ConvertLines(lines).Ok? ==>
              TreeMap.Ascending(ConvertLines(lines).value) && Keyed(ConvertLines(lines).value)
  {
    if lines != [] {
      var init := lines[..|lines| - 1];
      ConvertLinesShape(init);
      if ConvertLines(init).Ok? {
        var m := ConvertLines(init).value;
        match ParseLine(lines[|lines| - 1])
        case Err(_) =>
        case Ok(None) =>
        case Ok(Some(st)) =>
          TreeMap.PutAscending(m, st.no, st);
          PutKeyed(m, st);
      }
    }
  }

  /** Reference definition: the record of the last line that yields a record
      with db number `n`, if any. */
  function LastRecord(lines: seq<string>, n: int32): Option<Stats>
  {
    if lines == [] then None
    else match ParseLine(lines[|lines| - 1])
      case Ok(Some(st)) => if st.no == n then Some(st) else LastRecord(lines[..|lines| - 1], n)
      case _ => LastRecord(lines[..|lines| - 1], n)
  }

  /** Looking up a db number in the result gives the record of the last line
      for that number: a later line replaces an earlier one. */
  lemma {:induction false} ConvertLinesLast(lines: seq<string>, n: int32)
    requires ConvertLines(lines).Ok?
    ensures TreeMap.Get(ConvertLines(lines).value, n) == LastRecord(lines, n)
  {
    if lines != [] {
      var init := lines[..|lines| - 1];
      ConvertLinesLast(init, n);
      ConvertLinesShape(init);
      var m := ConvertLines(init).value;
      match ParseLine(lines[|lines| - 1])
      case Err(_) =>
      case Ok(None) =>
      case Ok(Some(st)) =>
        TreeMap.PutGet(m, st.no, st, n);
    }
  }

  /** Content of one line that yields a record gives a map of that one record. */
  lemma ConvertSingle(line: string, st: Stats)
    requires '\r' !in line && ParseLine(line) == Ok(Some(st))
    ensures Converted(line) == Ok([(st.no, st)])
  {
    NoCrNoMatch(line);
    SplitNoMatch(line, CrLf);
    assert [line][..0] == [];
    assert ConvertLines([line]) == Ok(TreeMap.Put([], st.no, st));
  }

  /** A line that yields no record leaves the map as it was. */
  lemma ConvertSkips(lines: seq<string>, line: string)
    requires ParseLine(line) == Ok(None)
    ensures ConvertLines(lines + [line]) == ConvertLines(lines)
  {
    assert (lines + [line])[..|lines|] == lines;
  }

  /** A line that throws aborts the whole conversion with its exception. */
  lemma ConvertFailsAt(lines: seq<string>, j: nat)
    requires j < |lines| && ConvertLines(lines[..j]).Ok? && ParseLine(lines[j]).Err?
    ensures ConvertLines(lines) == Err(ParseLine(lines[j]).error)
  {
    assert lines[..j + 1][..j] == lines[..j];
    ConvertAborts(lines, j + 1);
  }

  /** A line without `:`, such as the `# Keyspace` header, is skipped. */
  lemma SkipNoColon(line: string)
    requires ':' !in line
    ensures ParseLine(line) == Ok(None)
  {
    assert NoMatch(line, Char(':'));
    SplitNoMatch(line, Char(':'));
  }

  /** A line ending at its only `:`, such as `db0:`, is skipped: the empty
      part after the `:` is dropped by split. */
  lemma SkipEmptyBody(a: string)
    requires ':' !in a && a != []
    ensures ParseLine(a + [':']) == Ok(None)
  {
    SplitAtChar(a, ':', []);
    assert a + [':'] + [] == a + [':'];
    SplitNoMatch([], Char(':'));
    assert SplitAll(a + [':'], Char(':')) == [a, []];
    assert DropTrailingEmpty([a]) == [a];
  }

  /** A line with three non-empty `:`-parts, such as `a:b:c`, is skipped. */
  lemma SkipThreeParts(a: string, b: string, c: string)
    requires ':' !in a && ':' !in b && ':' !in c && c != []
    ensures ParseLine(a + [':'] + b + [':'] + c) == Ok(None)
  {
    SplitThreeParts(a, ':', b, c);
  }

  /** A line that splits into two parts on `:`: the db number is what
      follows the first two characters of the leader, whatever they are; a
      shorter leader or a leader that is not a number throws. */
  lemma LeaderErrors(line: string)
    requires |Split(line, Char(':'))| == 2
    ensures var leader := Split(line, Char(':'))[0];
            (|leader| < 2 ==> ParseLine(line) == Err(StringIndexOutOfBoundsException)) &&
            (|leader| >= 2 && ParseInt(leader[2..]).None? ==> ParseLine(line) == Err(NumberFormatException)) &&
            (|leader| >= 2 && ParseInt(leader[2..]).Some? ==>
               ParseLine(line) != Ok(None) &&
               (ParseLine(line).Ok? ==> ParseLine(line).value.value.no == ParseInt(leader[2..]).value))
  {
    var leader := Split(line, Char(':'))[0];
    if |leader| >= 2 && ParseInt(leader[2..]).Some? {
      var no := ParseInt(leader[2..]).value;
      PiecesKeepNo(Blank.(no := no), Split(Split(line, Char(':'))[1], Char(',')));
    }
  }

  /** Assigning the pieces never changes `no`. */
  lemma {:induction false} PiecesKeepNo(st: Stats, pieces: seq<string>)
    ensures AssignPieces(st, pieces).Ok? ==> AssignPieces(st, pieces).value.no == st.no
  {
    if pieces != [] {
      PiecesKeepNo(st, pieces[..|pieces| - 1]);
    }
  }

  /** A `field=value` piece with no `=` throws. */
  lemma PieceWithoutEquals(st: Stats, kv: string)
    requires '=' !in kv
    ensures AssignPiece(st, kv) == Err(ArrayIndexOutOfBoundsException)
  {
    assert NoMatch(kv, Char('='));
    SplitNoMatch(kv, Char('='));
  }

  /** The field a translated name sets, by the assignment table. */
  function FieldValue(st: Stats, name: string): Option<int32>
  {
    if name == "keys" then Some(st.keys)
    else if name == "expires" then Some(st.expires)
    else if name == "avgTtl" then Some(st.avgTtl)
    else None
  }

  /** The lowerCamel field name a piece assigns, None when it has no `=`. */
  function PieceName(kv: string): Option<string>
  {
    var kvArray := Split(kv, Char('='));
    if |kvArray| < 2 then None else Some(LowerUnderscoreToLowerCamel(kvArray[0]))
  }

  lemma FieldUntouched(st: Stats, kv: string, name: string)
    requires AssignPiece(st, kv).Ok? && PieceName(kv) != Some(name)
    ensures FieldValue(AssignPiece(st, kv).value, name) == FieldValue(st, name)
  {
    var kvArray := Split(kv, Char('='));
    AssignFieldOther(st, LowerUnderscoreToLowerCamel(kvArray[0]), kvArray[1], name);
  }

  /** The table sets only the field it is given the name of. */
  lemma AssignFieldOther(st: Stats, field: string, value: string, name: string)
    requires field != name && AssignField(st, field, value).Ok?
    ensures FieldValue(AssignField(st, field, value).value, name) == FieldValue(st, name)
  {
  }

  /** A field that no piece names keeps the value it started with; since
      every line starts from a fresh record, that value is 0. */
  lemma {:induction false} PiecesUntouched(st: Stats, pieces: seq<string>, name: string)
    requires AssignPieces(st, pieces).Ok?
    requires forall k :: 0 <= k < |pieces| ==> PieceName(pieces[k]) != Some(name)
    ensures FieldValue(AssignPieces(st, pieces).value, name) == FieldValue(st, name)
  {
    if pieces != [] {
      var init := pieces[..|pieces| - 1];
      assert forall k :: 0 <= k < |init| ==> init[k] == pieces[k];
      PiecesUntouched(st, init, name);
      FieldUntouched(AssignPieces(st, init).value, pieces[|pieces| - 1], name);
    }
  }

  /** A record of a line holds 0 in every field that none of the pieces of
      its body (the part after the `:`) names. */
  lemma AbsentFieldsZero(line: string, name: string)
    requires ParseLine(line).Ok? && ParseLine(line).value.Some?
    requires var pieces := Split(Split(line, Char(':'))[1], Char(','));
             forall k :: 0 <= k < |pieces| ==> PieceName(pieces[k]) != Some(name)
    requires name == "keys" || name == "expires" || name == "avgTtl"
    ensures FieldValue(ParseLine(line).value.value, name) == Some(0)
  {
    var parts := Split(line, Char(':'));
    var no := ParseInt(parts[0][2..]).value;
    PiecesUntouched(Blank.(no := no), Split(parts[1], Char(',')), name);
  }

  // ---------------------------------------------------------------------------
  // Reading back a line in the store's own format

  /** One keyspace line as the store writes it, behind a two-character
      leader such as `db`: `<leader><no>:keys=<k>,expires=<e>,avg_ttl=<t>`. */
  function FormatLine(leader: string, st: Stats): string
  {
    LineWith(leader, st, "keys", "expires", "avg_ttl")
  }

  /** The field names of the store's keyspace lines, as it writes them. */
  predicate StoreNames(k1: string, k2: string, k3: string)
  {
    k1 == "keys" && k2 == "expires" && k3 == "avg_ttl"
  }

  /** A keyspace line with the given names for the three fields. */
  function LineWith(leader: string, st: Stats, k1: string, k2: string, k3: string): string
  {
    leader + IntToString(st.no) + [':'] + BodyWith(st, k1, k2, k3)
  }

  function BodyWith(st: Stats, k1: string, k2: string, k3: string): string
  {
    Piece(k1, st.keys) + [','] + Piece(k2, st.expires) + [','] + Piece(k3, st.avgTtl)
  }

  /** One `name=<v>` piece. */
  function Piece(name: string, v: int32): string
  {
    name + ['='] + IntToString(v)
  }

  lemma StoreNamesFree(k1: string, k2: string, k3: string, c: char)
    requires StoreNames(k1, k2, k3)
    requires c == ',' || c == ':' || c == '\r' || c == '='
    ensures c !in k1 && c !in k2 && c !in k3
  {
  }

  /** A piece `name=<v>` assigns the parsed `v` to the field the translated name picks. */
  lemma PieceRoundTrip(st: Stats, key: string, v: int32)
    requires '=' !in key
    ensures AssignPiece(st, Piece(key, v)) ==
            AssignField(st, LowerUnderscoreToLowerCamel(key), IntToString(v))
  {
    IntToStringChars(v, '=');
    SplitTwoParts(key, '=', IntToString(v));
  }

  /** A one-word name is its own lowerCamel form. */
  lemma CamelWord(key: string)
    requires LowerWord(key)
    ensures LowerUnderscoreToLowerCamel(key) == key && '=' !in key
  {
    LowerCamelOneWord(key);
  }

  /** `avg_ttl` is translated to `avgTtl`. */
  lemma CamelAvgTtl(key: string)
    requires key == "avg_ttl"
    ensures LowerUnderscoreToLowerCamel(key) == "avgTtl" && '=' !in key
  {
    CamelTwoWords(key, "avg", "ttl", "avgTtl");
  }

  /** The words of `key` taken as parameters, so that the translation is
      proved from LowerCamelTwoWords rather than by unfolding it on text. */
  lemma CamelTwoWords(key: string, a: string, b: string, camel: string)
    requires key == "avg_ttl" && a == "avg" && b == "ttl" && camel == "avgTtl"
    ensures LowerUnderscoreToLowerCamel(key) == camel
  {
    assert key == a + ['_'] + b;
    LowerCamelTwoWords(a, b);
    assert ToUpperAscii(b[0]) == 'T';
    assert b[1..] == "tl";
    assert a + ['T'] + "tl" == camel;
  }

  /** Each of the three table entries takes the value Integer.toString wrote. */
  lemma AssignFieldParsed(st: Stats, v: int32)
    ensures AssignField(st, "keys", IntToString(v)) == Ok(st.(keys := v))
    ensures AssignField(st, "expires", IntToString(v)) == Ok(st.(expires := v))
    ensures AssignField(st, "avgTtl", IntToString(v)) == Ok(st.(avgTtl := v))
  {
    ParseIntToString(v);
  }

  lemma KeysPieceSets(st: Stats, v: int32, key: string)
    requires key == "keys"
    ensures AssignPiece(st, Piece(key, v)) == Ok(st.(keys := v))
  {
    assert LowerWord(key);
    CamelWord(key);
    PieceRoundTrip(st, key, v);
    AssignFieldParsed(st, v);
  }

  lemma ExpiresPieceSets(st: Stats, v: int32, key: string)
    requires key == "expires"
    ensures AssignPiece(st, Piece(key, v)) == Ok(st.(expires := v))
  {
    assert LowerWord(key);
    CamelWord(key);
    PieceRoundTrip(st, key, v);
    AssignFieldParsed(st, v);
  }

  /** `avg_ttl` is translated to `avgTtl` before it is assigned. */
  lemma AvgTtlPieceSets(st: Stats, v: int32, key: string)
    requires key == "avg_ttl"
    ensures AssignPiece(st, Piece(key, v)) == Ok(st.(avgTtl := v))
  {
    CamelAvgTtl(key);
    PieceRoundTrip(st, key, v);
    AssignFieldParsed(st, v);
  }

  lemma PieceFree(v: int32, key: string, c: char)
    requires c != '-' && c != '=' && !IsDigit(c) && c !in key
    ensures c !in Piece(key, v)
  {
    IntToStringChars(v, c);
  }

  /** None of the characters the parser splits on occur inside a body. */
  lemma BodyFree(st: Stats, k1: string, k2: string, k3: string, c: char)
    requires c !in k1 && c !in k2 && c !in k3 && (c == ':' || c == '\r')
    ensures c !in BodyWith(st, k1, k2, k3)
  {
    PieceFree(st.keys, k1, c);
    PieceFree(st.expires, k2, c);
    PieceFree(st.avgTtl, k3, c);
  }

  /** The body splits at its two commas into its three pieces. */
  lemma BodySplit(st: Stats, k1: string, k2: string, k3: string)
    requires ',' !in k1 && ',' !in k2 && ',' !in k3
    ensures Split(BodyWith(st, k1, k2, k3), Char(',')) ==
            [Piece(k1, st.keys), Piece(k2, st.expires), Piece(k3, st.avgTtl)]
  {
    PieceFree(st.keys, k1, ',');
    PieceFree(st.expires, k2, ',');
    PieceFree(st.avgTtl, k3, ',');
    SplitThreeParts(Piece(k1, st.keys), ',', Piece(k2, st.expires), Piece(k3, st.avgTtl));
  }

  /** The three pieces, assigned in order, set the three fields. */
  lemma BodyAssigns(b0: Stats, st: Stats, k1: string, k2: string, k3: string)
    requires StoreNames(k1, k2, k3)
    ensures AssignPieces(b0, [Piece(k1, st.keys), Piece(k2, st.expires), Piece(k3, st.avgTtl)]) ==
            Ok(b0.(keys := st.keys, expires := st.expires, avgTtl := st.avgTtl))
  {
    var p1, p2, p3 := Piece(k1, st.keys), Piece(k2, st.expires), Piece(k3, st.avgTtl);
    var pieces := [p1, p2, p3];
    assert pieces[..2][..1] == [p1] && pieces[..2] == [p1, p2] && pieces[..1] == [p1];
    KeysPieceSets(b0, st.keys, k1);
    ExpiresPieceSets(b0.(keys := st.keys), st.expires, k2);
    AvgTtlPieceSets(b0.(keys := st.keys, expires := st.expires), st.avgTtl, k3);
    assert AssignPieces(b0, [p1]) == Ok(b0.(keys := st.keys));
    assert AssignPieces(b0, [p1, p2]) == Ok(b0.(keys := st.keys, expires := st.expires));
  }

  /** A line in the store's format parses back to the record it was written
      from, whatever the two leader characters are. */
  lemma ParseLineWith(leader: string, st: Stats, k1: string, k2: string, k3: string)
    requires |leader| == 2 && ':' !in leader && StoreNames(k1, k2, k3)
    ensures ParseLine(LineWith(leader, st, k1, k2, k3)) == Ok(Some(st))
  {
    var lead := leader + IntToString(st.no);
    var body := BodyWith(st, k1, k2, k3);
    IntToStringChars(st.no, ':');
    assert ':' !in lead;
    StoreNamesFree(k1, k2, k3, ':');
    StoreNamesFree(k1, k2, k3, ',');
    BodyFree(st, k1, k2, k3, ':');
    SplitTwoParts(lead, ':', body);
    assert LineWith(leader, st, k1, k2, k3) == lead + [':'] + body;
    assert lead[2..] == IntToString(st.no);
    ParseIntToString(st.no);
    BodySplit(st, k1, k2, k3);
    BodyAssigns(Blank.(no := st.no), st, k1, k2, k3);
  }

  lemma NoCrLine(leader: string, st: Stats, k1: string, k2: string, k3: string)
    requires '\r' !in leader && StoreNames(k1, k2, k3)
    ensures '\r' !in LineWith(leader, st, k1, k2, k3)
  {
    IntToStringChars(st.no, '\r');
    StoreNamesFree(k1, k2, k3, '\r');
    BodyFree(st, k1, k2, k3, '\r');
  }

  lemma ConvertLineWith(leader: string, st: Stats, k1: string, k2: string, k3: string)
    requires |leader| == 2 && ':' !in leader && '\r' !in leader && StoreNames(k1, k2, k3)
    ensures Converted(LineWith(leader, st, k1, k2, k3)) == Ok([(st.no, st)])
  {
    var line := LineWith(leader, st, k1, k2, k3);
    NoCrLine(leader, st, k1, k2, k3);
    ParseLineWith(leader, st, k1, k2, k3);
    ConvertSingle(line, st);
  }

  /** Converting one line in the store's format gives a map with exactly one
      entry: the record under its db number. */
  lemma ConvertFormatLine(leader: string, st: Stats)
    requires |leader| == 2 && ':' !in leader && '\r' !in leader
    ensures Converted(FormatLine(leader, st)) == Ok([(st.no, st)])
  {
    ConvertLineWith(leader, st, "keys", "expires", "avg_ttl");
  }

  lemma FormatExample()
    ensures FormatLine("db", Stats(0, 10, 2, 5)) == "db0:keys=10,expires=2,avg_ttl=5"
  {
  }

  /** `db0:keys=10,expires=2,avg_ttl=5` yields exactly the entry
      0 -> {no=0, keys=10, expires=2, avgTtl=5}. */
  lemma ConvertExample(content: string)
    requires content == "db0:keys=10,expires=2,avg_ttl=5"
    ensures Converted(content) == Ok([(0, Stats(0, 10, 2, 5))])
  {
    FormatExample();
    ConvertFormatLine("db", Stats(0, 10, 2, 5));
  }
}
