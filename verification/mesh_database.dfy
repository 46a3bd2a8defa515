/**
 * Mesh category databases: an index file maps object keys to category names.
 *
 * Two index formats are read line by line, each line already split on
 * whitespace into its tokens:
 *   - Cat50: every line is `key category`.
 *   - SHREC: three header lines, then 3-token lines that start a category and
 *     1-token lines naming a model of the current category, stored under the
 *     key `"M" + token`.
 */
module MeshCategories {
  import opened Wrappers

  /** One line of an index file, split on whitespace. */
  type Line = seq<string>

  datatype IndexFormat = Cat50 | Shrec

  datatype ParseError =
    | MissingToken(line: nat)  // a Cat50 line with fewer than two tokens (IndexError)
    | MissingHeader            // a SHREC file with fewer than three lines (StopIteration)

  /** What `create_categories` stores: the key-to-category dictionary and, for SHREC, the keys in file order. */
  datatype MeshIndex = MeshIndex(objectDict: map<string, string>, sortedKeys: seq<string>)

  // ---------------------------------------------------------------- Cat50

  /** The Cat50 dictionary of a file: each line stores its second token under its first. */
  function Cat50Dict(lines: seq<Line>): Result<map<string, string>, ParseError>
    decreases |lines|
  {
    if |lines| == 0 then Success(map[])
    else
      var front := Cat50Dict(lines[..|lines| - 1]);
      var last := lines[|lines| - 1];
      if front.Failure? then front
      else if |last| < 2 then Failure(MissingToken(|lines| - 1))
      else Success(front.value[last[0] := last[1]])
  }

  /** Every line has the two tokens a Cat50 line needs. */
  predicate Cat50Lines(lines: seq<Line>) {
    forall i :: 0 <= i < |lines| ==> |lines[i]| >= 2
  }

  /** Once a prefix of the file fails, the whole file fails the same way. */
  lemma {:induction false} Cat50FailureSticks(lines: seq<Line>, n: nat)
    requires n <= |lines|
    requires Cat50Dict(lines[..n]).Failure?
    ensures Cat50Dict(lines) == Cat50Dict(lines[..n])
    decreases |lines|
  {
    if n < |lines| {
      assert lines[..|lines| - 1][..n] == lines[..n];
      Cat50FailureSticks(lines[..|lines| - 1], n);
    } else {
      assert lines[..n] == lines;
    }
  }

  /**
   * A Cat50 file fails exactly when one of its lines has fewer than two
   * tokens, and the error names the first such line.
   */
  lemma {:induction false} Cat50FailsAtFirstShortLine(lines: seq<Line>)
    ensures Cat50Dict(lines).Failure? <==> exists i :: 0 <= i < |lines| && |lines[i]| < 2
    ensures Cat50Dict(lines).Failure? ==>
      && Cat50Dict(lines).error.MissingToken?
      && var i := Cat50Dict(lines).error.line;
      i < |lines| && |lines[i]| < 2 && forall j :: 0 <= j < i ==> |lines[j]| >= 2
    decreases |lines|
  {
    if |lines| > 0 {
      var front := lines[..|lines| - 1];
      Cat50FailsAtFirstShortLine(front);
      assert forall i :: 0 <= i < |front| ==> front[i] == lines[i];
    }
  }

  /** A parsed Cat50 file's keys are exactly the first tokens of its lines. */
  lemma {:induction false} Cat50Keys(lines: seq<Line>)
    requires Cat50Lines(lines)
    ensures Cat50Dict(lines).Success?
    ensures forall k :: k in Cat50Dict(lines).value <==> exists i :: 0 <= i < |lines| && lines[i][0] == k
    decreases |lines|
  {
    if |lines| > 0 {
      var front := lines[..|lines| - 1];
      Cat50Keys(front);
      assert forall i :: 0 <= i < |front| ==> front[i] == lines[i];
    }
  }

  /** Each key maps to the category of its LAST line: a later line overrides an earlier one. */
  lemma {:induction false} Cat50LastOccurrenceWins(lines: seq<Line>, i: nat)
    requires Cat50Lines(lines)
    requires i < |lines|
    requires forall j :: i < j < |lines| ==> lines[j][0] != lines[i][0]
    ensures Cat50Dict(lines).Success? && lines[i][0] in Cat50Dict(lines).value
    ensures Cat50Dict(lines).value[lines[i][0]] == lines[i][1]
    decreases |lines|
  {
    Cat50FailsAtFirstShortLine(lines);
    var front := lines[..|lines| - 1];
    if i < |lines| - 1 {
      assert forall j :: 0 <= j < |front| ==> front[j] == lines[j];
      Cat50LastOccurrenceWins(front, i);
    }
  }

  /** `Cat50ObjectDatabase.create_categories`, on the tokens of the file. */
  method ReadCat50Index(lines: seq<Line>) returns (r: Result<map<string, string>, ParseError>)
    ensures r == Cat50Dict(lines)
  {
    var objectDict := map[];
    var i := 0;
    while i < |lines|
      invariant 0 <= i <= |lines|
      invariant Cat50Dict(lines[..i]) == Success(objectDict)
    {
      assert lines[..i + 1][..i] == lines[..i];
      var split := lines[i];
      if |split| < 2 {
        Cat50FailureSticks(lines, i + 1);
        return Failure(MissingToken(i));
      }
      objectDict := objectDict[split[0] := split[1]];
      i := i + 1;
    }
    assert lines[..i] == lines;
    r := Success(objectDict);
  }

  // ---------------------------------------------------------------- SHREC

  /** The SHREC reader's state: the current category, the dictionary and the key list. */
  datatype ShrecState = ShrecState(currentCat: string, objectDict: map<string, string>, sortedKeys: seq<string>)

  /** The key a 1-token SHREC line stands for. */
  function ShrecKey(token: string): (k: string)
    ensures |k| == |token| + 1 && k[0] == 'M' && k[1..] == token
  {
    "M" + token
  }

  /** One line after the header. */
  function ShrecStep(st: ShrecState, split: Line): ShrecState {
    if |split| == 3 then st.(currentCat := split[0])
    else if |split| == 1 then
      st.(objectDict := st.objectDict[ShrecKey(split[0]) := st.currentCat],
          sortedKeys := st.sortedKeys + [ShrecKey(split[0])])
    else st
  }

  /** The state after the lines that follow the header. */
  function ShrecFold(body: seq<Line>): ShrecState
    decreases |body|
  {
    if |body| == 0 then ShrecState("", map[], [])
    else ShrecStep(ShrecFold(body[..|body| - 1]), body[|body| - 1])
  }

  /** The SHREC index of a file: the first three lines are skipped and must exist. */
  function ShrecIndex(lines: seq<Line>): (r: Result<MeshIndex, ParseError>)
    ensures r.Failure? <==> |lines| < 3
  {
    if |lines| < 3 then Failure(MissingHeader)
    else
      var st := ShrecFold(lines[3..]);
      Success(MeshIndex(st.objectDict, st.sortedKeys))
  }

  /** `cat` is the first token of the last 3-token line of `body`, or `""` if it has none. */
  ghost predicate CurrentCategory(body: seq<Line>, cat: string) {
    || (exists j :: 0 <= j < |body| && |body[j]| == 3 && body[j][0] == cat &&
          forall k :: j < k < |body| ==> |body[k]| != 3)
    || (cat == "" && forall k :: 0 <= k < |body| ==> |body[k]| != 3)
  }

  /** The reader's current category is the one the last 3-token line named. */
  lemma {:induction false} ShrecCategoryIsLastHeading(body: seq<Line>, cat: string)
    requires CurrentCategory(body, cat)
    ensures ShrecFold(body).currentCat == cat
    decreases |body|
  {
    if |body| > 0 {
      var front := body[..|body| - 1];
      if |body[|body| - 1]| != 3 {
        assert forall k :: 0 <= k < |front| ==> front[k] == body[k];
        if exists j :: 0 <= j < |body| && |body[j]| == 3 && body[j][0] == cat &&
                       forall k :: j < k < |body| ==> |body[k]| != 3 {
          var j :| 0 <= j < |body| && |body[j]| == 3 && body[j][0] == cat &&
                   forall k :: j < k < |body| ==> |body[k]| != 3;
          assert j < |front|;
        }
        ShrecCategoryIsLastHeading(front, cat);
      }
    }
  }

  lemma ShrecKeyInjective(a: string, b: string)
    requires ShrecKey(a) == ShrecKey(b)
    ensures a == b
  {
    assert a == ShrecKey(a)[1..];
  }

  /**
   * A 1-token line `t` stores key `"M" + t` under the category named by the
   * last 3-token line before it (`""` if none); a later line with the same
   * token overrides it.
   */
  lemma {:induction false} ShrecKeyCategory(body: seq<Line>, i: nat, cat: string)
    requires i < |body| && |body[i]| == 1
    requires CurrentCategory(body[..i], cat)
    requires forall j :: i < j < |body| && |body[j]| == 1 ==> body[j][0] != body[i][0]
    ensures ShrecKey(body[i][0]) in ShrecFold(body).objectDict
    ensures ShrecFold(body).objectDict[ShrecKey(body[i][0])] == cat
    decreases |body|
  {
    var front := body[..|body| - 1];
    var last := body[|body| - 1];
    if i == |body| - 1 {
      assert body[..i] == front;
      ShrecCategoryIsLastHeading(front, cat);
    } else {
      assert front[..i] == body[..i];
      ShrecKeyCategory(front, i, cat);
      if |last| == 1 && ShrecKey(last[0]) == ShrecKey(body[i][0]) {
        ShrecKeyInjective(last[0], body[i][0]);
      }
    }
  }

  /** A line whose token count is neither 1 nor 3 changes nothing, wherever it stands. */
  lemma {:induction false} ShrecOtherLinesIgnored(front: seq<Line>, split: Line, back: seq<Line>)
    requires |split| != 1 && |split| != 3
    ensures ShrecFold(front + [split] + back) == ShrecFold(front + back)
    decreases |back|
  {
    if |back| == 0 {
      assert front + [split] + back == front + [split];
      assert (front + [split])[..|front|] == front;
      assert front + back == front;
    } else {
      var b := back[..|back| - 1];
      ShrecOtherLinesIgnored(front, split, b);
      assert (front + [split] + back)[..|front + [split] + back| - 1] == front + [split] + b;
      assert (front + back)[..|front + back| - 1] == front + b;
    }
  }

  /** The keys the 1-token lines of `body` add, first line first. */
  function AddedKeys(body: seq<Line>): seq<string>
    decreases |body|
  {
    if |body| == 0 then []
    else (if |body[0]| == 1 then [ShrecKey(body[0][0])] else []) + AddedKeys(body[1..])
  }

  lemma {:induction false} AddedKeysAppend(body: seq<Line>, split: Line)
    ensures AddedKeys(body + [split]) ==
            AddedKeys(body) + (if |split| == 1 then [ShrecKey(split[0])] else [])
    decreases |body|
  {
    if |body| > 0 {
      assert (body + [split])[1..] == body[1..] + [split];
      AddedKeysAppend(body[1..], split);
    } else {
      assert body + [split] == [split];
    }
  }

  /** The key list holds the added keys in file order, repeats included. */
  lemma {:induction false} ShrecKeysInFileOrder(body: seq<Line>)
    ensures ShrecFold(body).sortedKeys == AddedKeys(body)
    decreases |body|
  {
    if |body| > 0 {
      var front := body[..|body| - 1];
      ShrecKeysInFileOrder(front);
      assert body == front + [body[|body| - 1]];
      AddedKeysAppend(front, body[|body| - 1]);
    }
  }

  /** A key is in the key list exactly when it is in the dictionary. */
  lemma {:induction false} ShrecKeysMatchDict(body: seq<Line>)
    ensures forall k :: k in ShrecFold(body).sortedKeys <==> k in ShrecFold(body).objectDict
    decreases |body|
  {
    if |body| > 0 {
      ShrecKeysMatchDict(body[..|body| - 1]);
    }
  }

  /** Replacing the three header lines does not change the index. */
  lemma {:induction false} ShrecHeaderIgnored(lines: seq<Line>, header: seq<Line>)
    requires |lines| >= 3 && |header| == 3
    ensures ShrecIndex(header + lines[3..]) == ShrecIndex(lines)
  {
    assert (header + lines[3..])[3..] == lines[3..];
  }

  /** `SHRECObjectDatabase.create_categories`, on the tokens of the file. */
  method ReadShrecIndex(lines: seq<Line>) returns (r: Result<MeshIndex, ParseError>)
    ensures r == ShrecIndex(lines)
  {
    if |lines| < 3 {
      return Failure(MissingHeader);
    }
    var objectDict := map[];
    var sortedKeys := [];
    var currentCat := "";
    var i := 3;
    while i < |lines|
      invariant 3 <= i <= |lines|
      invariant ShrecFold(lines[3..i]) == ShrecState(currentCat, objectDict, sortedKeys)
    {
      assert lines[3..i + 1][..i - 3] == lines[3..i];
      var split := lines[i];
      if |split| == 3 {
        currentCat := split[0];
      } else if |split| == 1 {
        var objectKey := ShrecKey(split[0]);
        objectDict := objectDict[objectKey := currentCat];
        sortedKeys := sortedKeys + [objectKey];
      }
      i := i + 1;
    }
    assert lines[3..i] == lines[3..];
    r := Success(MeshIndex(objectDict, sortedKeys));
  }

  // ---------------------------------------------------------------- databases

  /** The index a file of the given format yields. */
  function ParseIndex(format: IndexFormat, lines: seq<Line>): Result<MeshIndex, ParseError> {
    match format
    case Cat50 =>
      (match Cat50Dict(lines)
       case Success(d) => Success(MeshIndex(d, []))
       case Failure(e) => Failure(e))
    case Shrec => ShrecIndex(lines)
  }

  /** A category database, of either format. */
  class MeshDatabase {
    const format: IndexFormat
    var objectDict: map<string, string>
    /** Kept for SHREC only; a Cat50 database has none. */
    var sortedKeys: seq<string>

    ghost predicate Valid()
      reads this
    {
      && (format.Cat50? ==> sortedKeys == [])
      && (format.Shrec? ==> forall k :: k in sortedKeys <==> k in objectDict)
    }

    /** An empty database, before its index is read. */
    constructor (format: IndexFormat)
      ensures Valid()
      ensures this.format == format && objectDict == map[] && sortedKeys == []
    {
      this.format := format;
      objectDict := map[];
      sortedKeys := [];
    }

    /** Read the index; on an error the database keeps what it had. */
    method CreateCategories(lines: seq<Line>) returns (r: Result<(), ParseError>)
      requires Valid()
      modifies this
      ensures Valid()
      ensures ParseIndex(format, lines).Success? ==>
        r == Success(()) &&
        objectDict == ParseIndex(format, lines).value.objectDict &&
        sortedKeys == ParseIndex(format, lines).value.sortedKeys
      ensures ParseIndex(format, lines).Failure? ==>
        r == Failure(ParseIndex(format, lines).error) &&
        objectDict == old(objectDict) && sortedKeys == old(sortedKeys)
    {
      match format {
        case Cat50 =>
          var parsed := ReadCat50Index(lines);
          if parsed.Failure? {
            return Failure(parsed.error);
          }
          objectDict := parsed.value;
        case Shrec =>
          var parsed := ReadShrecIndex(lines);
          if parsed.Failure? {
            return Failure(parsed.error);
          }
          ShrecKeysMatchDict(lines[3..]);
          objectDict := parsed.value.objectDict;
          sortedKeys := parsed.value.sortedKeys;
      }
      r := Success(());
    }

    /** The `__init__` of either database class: a database over the index in `lines`. */
    static method Open(format: IndexFormat, lines: seq<Line>) returns (r: Result<MeshDatabase, ParseError>)
      ensures ParseIndex(format, lines).Failure? ==> r == Failure(ParseIndex(format, lines).error)
      ensures ParseIndex(format, lines).Success? ==>
        r.Success? && fresh(r.value) && r.value.Valid() && r.value.format == format &&
        r.value.objectDict == ParseIndex(format, lines).value.objectDict &&
        r.value.sortedKeys == ParseIndex(format, lines).value.sortedKeys
    {
      var db := new MeshDatabase(format);
      var created := db.CreateCategories(lines);
      if created.Failure? {
        return Failure(created.error);
      }
      r := Success(db);
    }

    /** The category of a key, or `None` for an unknown key. */
    function ObjectCategoryForKey(key: string): (r: Option<string>)
      reads this
      ensures r.Some? <==> key in objectDict
      ensures r.Some? ==> r.value == objectDict[key]
    {
      if key in objectDict then Some(objectDict[key]) else None
    }

    /** The keys that have a category. */
    function ObjectKeys(): (r: set<string>)
      reads this
      ensures forall k :: k in r <==> ObjectCategoryForKey(k).Some?
    {
      objectDict.Keys
    }

    /** The whole dictionary: every entry is what the category lookup returns. */
    function ObjectDict(): (r: map<string, string>)
      reads this
      ensures r.Keys == ObjectKeys()
      ensures forall k :: k in r ==> ObjectCategoryForKey(k) == Some(r[k])
    {
      objectDict
    }

    /** A SHREC database's keys in file order; each one has a category. */
    function SortedKeys(): (r: seq<string>)
      reads this
      requires Valid() && format.Shrec?
      ensures forall k :: k in r ==> ObjectCategoryForKey(k).Some?
    {
      sortedKeys
    }
  }
}
