/** The keyspace section of the store's INFO reply, one line per database:
    `db0:keys=1121,expires=3,avg_ttl=0`, lines separated by CRLF. */
module RedisInfo {
  import opened JavaLang
  import TreeMap

  /** The field values of one Keyspace record. */
  datatype Stats = Stats(no: int32, keys: int32, expires: int32, avgTtl: int32)

  /** A freshly constructed record: every int field is 0. */
  const Blank := Stats(0, 0, 0, 0)

  /** The assignment table that stands for the reflective field setter:
      `keys`, `expires` and `avgTtl` take the value parsed as an int, any
      other name is ignored. */
  function AssignField(st: Stats, name: string, value: string): (r: Result<Stats>)
    ensures r.Ok? ==> r.value.no == st.no
    ensures r.Err? ==> r.error == NumberFormatException
  {
    if name != "keys" && name != "expires" && name != "avgTtl" then Ok(st)
    else match ParseInt(value)
      case None => Err(NumberFormatException)
      case Some(n) =>
        Ok(if name == "keys" then st.(keys := n)
           else if name == "expires" then st.(expires := n)
           else st.(avgTtl := n))
  }

  /** The exceptions a keyspace line can throw. */
  predicate LineException(e: Exception)
  {
    e == StringIndexOutOfBoundsException || e == NumberFormatException || e == ArrayIndexOutOfBoundsException
  }

  /** One `field=value` piece: split on `=`, translate the name to lowerCamel, assign. */
  function AssignPiece(st: Stats, kv: string): (r: Result<Stats>)
    ensures r.Err? ==> r.error == ArrayIndexOutOfBoundsException || r.error == NumberFormatException
  {
    var kvArray := Split(kv, Char('='));
    if |kvArray| < 2 then Err(ArrayIndexOutOfBoundsException)
    else AssignField(st, LowerUnderscoreToLowerCamel(kvArray[0]), kvArray[1])
  }

  /** The pieces assigned left to right; the first failure ends the line. */
  function AssignPieces(st: Stats, pieces: seq<string>): (r: Result<Stats>)
    ensures r.Err? ==> r.error == ArrayIndexOutOfBoundsException || r.error == NumberFormatException
  {
    if pieces == [] then Ok(st)
    else match AssignPieces(st, pieces[..|pieces| - 1])
      case Err(e) => Err(e)
      case Ok(s1) => AssignPiece(s1, pieces[|pieces| - 1])
  }

  /** One line: None when its `:`-split does not have exactly two parts;
      otherwise the db number is the text after the first two characters of
      the leader and the fields come from the `,`-separated body. */
  function ParseLine(line: string): (r: Result<Option<Stats>>)
    ensures r == Ok(None) <==> |Split(line, Char(':'))| != 2
    ensures r.Err? ==> LineException(r.error)
    ensures r.Ok? && r.value.Some? ==>
              |Split(line, Char(':'))[0]| >= 2 && ParseInt(Split(line, Char(':'))[0][2..]).Some?
  {
    var dbNumber := Split(line, Char(':'));
    if |dbNumber| != 2 then Ok(None)
    else if |dbNumber[0]| < 2 then Err(StringIndexOutOfBoundsException)
    else match ParseInt(dbNumber[0][2..])
      case None => Err(NumberFormatException)
      case Some(no) =>
        match AssignPieces(Blank.(no := no), Split(dbNumber[1], Char(',')))
        case Err(e) => Err(e)
        case Ok(st) => Ok(Some(st))
  }

  /** The map after the given lines, in TreeMap iteration order; the first
      failing line aborts the whole conversion. */
  function ConvertLines(lines: seq<string>): (r: Result<seq<(int32, Stats)>>)
    ensures r.Err? ==> LineException(r.error)
    ensures r.Ok? ==> |r.value| <= |lines|
  {
    if lines == [] then Ok([])
    else match ConvertLines(lines[..|lines| - 1])
      case Err(e) => Err(e)
      case Ok(m) =>
        match ParseLine(lines[|lines| - 1])
        case Err(e) => Err(e)
        case Ok(None) => Ok(m)
        case Ok(Some(st)) => Ok(TreeMap.Put(m, st.no, st))
  }

  /** What Keyspace.convert returns for `content`. */
  function Converted(content: string): (r: Result<seq<(int32, Stats)>>)
    ensures r.Err? ==> LineException(r.error)
    ensures r.Ok? ==> |r.value| <= |Split(content, CrLf)|
  {
    ConvertLines(Split(content, CrLf))
  }

  /** Mutable record of one database's keyspace counters. */
  class Keyspace {
    var no: int32
    var keys: int32
    var expires: int32
    var avgTtl: int32

    function Fields(): Stats
      reads this
    {
      Stats(no, keys, expires, avgTtl)
    }

    constructor ()
      ensures Fields() == Blank
    {
      no, keys, expires, avgTtl := 0, 0, 0, 0;
    }

    method SetNo(v: int32)
      modifies this
      ensures Fields() == old(Fields()).(no := v)
    {
      no := v;
    }

    method SetKeys(v: int32)
      modifies this
      ensures Fields() == old(Fields()).(keys := v)
    {
      keys := v;
    }

    method SetExpires(v: int32)
      modifies this
      ensures Fields() == old(Fields()).(expires := v)
    {
      expires := v;
    }

    method SetAvgTtl(v: int32)
      modifies this
      ensures Fields() == old(Fields()).(avgTtl := v)
    {
      avgTtl := v;
    }

    /** Sets the field called `name` (lowerCamel) from its text `value`. */
    method SetField(name: string, value: string) returns (o: Outcome)
      modifies this
      ensures AssignField(old(Fields()), name, value) ==
              (if o.Pass? then Ok(Fields()) else Err(o.error))
      ensures o.Fail? ==> Fields() == old(Fields())
    {
      if name != "keys" && name != "expires" && name != "avgTtl" {
        return Pass;
      }
      var parsed := ParseInt(value);
      if parsed.None? {
        return Fail(NumberFormatException);
      }
      if name == "keys" {
        SetKeys(parsed.value);
      } else if name == "expires" {
        SetExpires(parsed.value);
      } else {
        SetAvgTtl(parsed.value);
      }
      o := Pass;
    }

    /** One `field=value` piece of a keyspace line: split on `=`, translate
        the name from lower_underscore to lowerCamel, assign the field. */
    method AssignPair(kv: string) returns (o: Outcome)
      modifies this
      ensures AssignPiece(old(Fields()), kv) == (if o.Pass? then Ok(Fields()) else Err(o.error))
    {
      var kvArray := Split(kv, Char('='));
      if |kvArray| < 2 {
        return Fail(ArrayIndexOutOfBoundsException);
      }
      var key := kvArray[0];
      var value := kvArray[1];
      key := LowerUnderscoreToLowerCamel(key);
      o := SetField(key, value);
    }

    /** Assigns every piece of a line's body, left to right, stopping at the first that throws. */
    method AssignAll(keyMember: seq<string>) returns (o: Outcome)
      modifies this
      ensures AssignPieces(old(Fields()), keyMember) == (if o.Pass? then Ok(Fields()) else Err(o.error))
    {
      ghost var st := Fields();
      var j := 0;
      while j < |keyMember|
        invariant j <= |keyMember|
        invariant AssignPieces(st, keyMember[..j]) == Ok(Fields())
      {
        o := AssignNext(st, keyMember, j);
        if o.Fail? {
          PiecesAbort(st, keyMember, j + 1);
          return;
        }
        j := j + 1;
      }
      assert keyMember[..j] == keyMember;
      o := Pass;
    }

    /** One iteration of that loop: the next piece assigned onto the record. */
    method AssignNext(ghost st: Stats, keyMember: seq<string>, j: nat) returns (o: Outcome)
      requires j < |keyMember| && AssignPieces(st, keyMember[..j]) == Ok(Fields())
      modifies this
      ensures AssignPieces(st, keyMember[..j + 1]) == (if o.Pass? then Ok(Fields()) else Err(o.error))
    {
      PiecesStep(st, keyMember, j, Fields());
      o := AssignPair(keyMember[j]);
    }

    /** The body of Keyspace.convert's loop for one line, up to the put: a
        fresh record, or None when the line does not split into two parts on `:`. */
    static method ConvertLine(line: string) returns (r: Result<Option<Keyspace>>)
      ensures match ParseLine(line)
              case Err(e) => r == Err(e)
              case Ok(None) => r == Ok(None)
              case Ok(Some(st)) => r.Ok? && r.value.Some? && fresh(r.value.value) && r.value.value.Fields() == st
    {
      var keyspace := new Keyspace();
      var dbNumber := Split(line, Char(':'));
      if |dbNumber| != 2 {
        return Ok(None);
      }
      if |dbNumber[0]| < 2 {
        return Err(StringIndexOutOfBoundsException);
      }
      var dbNo := dbNumber[0][2..];
      var parsed := ParseInt(dbNo);
      if parsed.None? {
        return Err(NumberFormatException);
      }
      keyspace.SetNo(parsed.value);
      var keyMember := Split(dbNumber[1], Char(','));
      var o := keyspace.AssignAll(keyMember);
      if o.Fail? {
        return Err(o.error);
      }
      r := Ok(Some(keyspace));
    }

    /** Parses the keyspace section of an INFO reply into a TreeMap from db
        number to a fresh record per line. */
    static method Convert(content: string) returns (r: Result<seq<(int32, Keyspace)>>)
      ensures match Converted(content)
              case Err(e) => r == Err(e)
              case Ok(m) => r.Ok? && Holds(r.value, m)
      ensures r.Ok? ==> forall e :: e in r.value ==> fresh(e.1)
    {
      var lines := Split(content, CrLf);
      r := ConvertAll(lines);
    }

    /** The loop of Keyspace.convert over the lines, putting each record in
        the TreeMap under its db number. */
    static method ConvertAll(lines: seq<string>) returns (r: Result<seq<(int32, Keyspace)>>)
      ensures match ConvertLines(lines)
              case Err(e) => r == Err(e)
              case Ok(m) => r.Ok? && Holds(r.value, m)
      ensures r.Ok? ==> forall e :: e in r.value ==> fresh(e.1)
    {
      var keyspaceMap: seq<(int32, Keyspace)> := [];
      ghost var m: seq<(int32, Stats)> := [];
      var i := 0;
      while i < |lines|
        invariant i <= |lines|
        invariant ConvertLines(lines[..i]) == Ok(m)
        invariant Holds(keyspaceMap, m)
        invariant forall e :: e in keyspaceMap ==> fresh(e.1)
      {
        ConvertStep(lines, i, m);
        var next := PutLine(keyspaceMap, m, lines[i]);
        if next.Err? {
          ConvertAborts(lines, i + 1);
          return Err(next.error);
        }
        ghost var parsed := ParseLine(lines[i]);
        if parsed.value.Some? {
          m := TreeMap.Put(m, parsed.value.value.no, parsed.value.value);
        }
        keyspaceMap := next.value;
        i := i + 1;
      }
      assert lines[..i] == lines;
      r := Ok(keyspaceMap);
    }

    /** One iteration of that loop: the line's record, if it yields one, put
        in the map under its db number. */
    static method PutLine(keyspaceMap: seq<(int32, Keyspace)>, ghost m: seq<(int32, Stats)>, line: string)
      returns (r: Result<seq<(int32, Keyspace)>>)
      requires Holds(keyspaceMap, m)
      ensures match ParseLine(line)
              case Err(e) => r == Err(e)
              case Ok(None) => r == Ok(keyspaceMap)
              case Ok(Some(st)) => r.Ok? && Holds(r.value, TreeMap.Put(m, st.no, st))
      ensures r.Ok? ==> forall e :: e in r.value ==> e in keyspaceMap || fresh(e.1)
    {
      var parsed := ConvertLine(line);
      if parsed.Err? {
        return Err(parsed.error);
      }
      if parsed.value.None? {
        return Ok(keyspaceMap);
      }
      var keyspace := parsed.value.value;
      PutHolds(keyspaceMap, m, keyspace.no, keyspace);
      TreeMap.PutEntries(keyspaceMap, keyspace.no, keyspace);
      r := Ok(TreeMap.Put(keyspaceMap, keyspace.no, keyspace));
    }
  }

  /** The map of records holds, entry for entry, the key and field values of `m`. */
  predicate Holds(es: seq<(int32, Keyspace)>, m: seq<(int32, Stats)>)
    reads set k | 0 <= k < |es| :: es[k].1
  {
    |es| == |m| && forall k :: 0 <= k < |es| ==> es[k].0 == m[k].0 && es[k].1.Fields() == m[k].1
  }

  lemma {:induction false} PutHolds(es: seq<(int32, Keyspace)>, m: seq<(int32, Stats)>, k: int32, ks: Keyspace)
    requires Holds(es, m)
    ensures Holds(TreeMap.Put(es, k, ks), TreeMap.Put(m, k, ks.Fields()))
  {
    var f := ks.Fields();
    if es == [] {
      ConsHolds((k, ks), [], (k, f), []);
    } else if k < es[0].0 {
      ConsHolds((k, ks), es, (k, f), m);
    } else if k == es[0].0 {
      TailHolds(es, m);
      ConsHolds((k, ks), es[1..], (k, f), m[1..]);
    } else {
      TailHolds(es, m);
      PutHolds(es[1..], m[1..], k, ks);
      ConsHolds(es[0], TreeMap.Put(es[1..], k, ks), m[0], TreeMap.Put(m[1..], k, f));
    }
  }

  lemma ConsHolds(e: (int32, Keyspace), es: seq<(int32, Keyspace)>, g: (int32, Stats), m: seq<(int32, Stats)>)
    requires Holds(es, m) && e.0 == g.0 && e.1.Fields() == g.1
    ensures Holds([e] + es, [g] + m)
  {
    forall i | 0 < i < |es| + 1
      ensures ([e] + es)[i] == es[i - 1] && ([g] + m)[i] == m[i - 1]
    {
    }
  }

  lemma TailHolds(es: seq<(int32, Keyspace)>, m: seq<(int32, Stats)>)
    requires Holds(es, m) && es != []
    ensures Holds(es[1..], m[1..]) && es[0].0 == m[0].0
  {
    forall i | 0 <= i < |es| - 1
      ensures es[1..][i] == es[i + 1] && m[1..][i] == m[i + 1]
    {
    }
  }

  /** One more piece: the pieces so far, then that piece's assignment. */
  lemma PiecesStep(st: Stats, pieces: seq<string>, j: nat, cur: Stats)
    requires j < |pieces| && AssignPieces(st, pieces[..j]) == Ok(cur)
    ensures AssignPieces(st, pieces[..j + 1]) == AssignPiece(cur, pieces[j])
  {
    assert pieces[..j + 1][..j] == pieces[..j];
  }

  /** A failing piece fails the line, whatever pieces follow it. */
  lemma {:induction false} PiecesAbort(st: Stats, pieces: seq<string>, j: nat)
    requires j <= |pieces| && AssignPieces(st, pieces[..j]).Err?
    ensures AssignPieces(st, pieces) == AssignPieces(st, pieces[..j])
    decreases |pieces|
  {
    if j < |pieces| {
      var init := pieces[..|pieces| - 1];
      assert init[..j] == pieces[..j];
      PiecesAbort(st, init, j);
    } else {
      assert pieces[..j] == pieces;
    }
  }

  /** One more line: the conversion so far, then that line's record put in. */
  lemma ConvertStep(lines: seq<string>, i: nat, m: seq<(int32, Stats)>)
    requires i < |lines| && ConvertLines(lines[..i]) == Ok(m)
    ensures ParseLine(lines[i]).Err? ==> ConvertLines(lines[..i + 1]) == Err(ParseLine(lines[i]).error)
    ensures ParseLine(lines[i]) == Ok(None) ==> ConvertLines(lines[..i + 1]) == Ok(m)
    ensures ParseLine(lines[i]).Ok? && ParseLine(lines[i]).value.Some? ==>
              var st := ParseLine(lines[i]).value.value;
              ConvertLines(lines[..i + 1]) == Ok(TreeMap.Put(m, st.no, st))
  {
    assert lines[..i + 1][..i] == lines[..i];
  }

  /** A line that throws aborts the conversion, whatever lines follow it. */
  lemma {:induction false} ConvertAborts(lines: seq<string>, j: nat)
    requires j <= |lines| && ConvertLines(lines[..j]).Err?
    ensures ConvertLines(lines) == ConvertLines(lines[..j])
    decreases |lines|
  {
    if j < |lines| {
      var init := lines[..|lines| - 1];
      assert init[..j] == lines[..j];
      ConvertAborts(init, j);
    } else {
      assert lines[..j] == lines;
    }
  }
}
