/** The rewrite of the live log at the end of a run (index.js:105-134): the
    consumed prefix is cut with sed, the pending entries are written to the
    intermediate file one per line, the rest of the log is appended to that
    file, and the result is copied back over the log. */
module LogStore {
  import opened Strings

  // ---------------------------------------------------------------------
  // The prefix cut.

  /** Delete every line up to and including the first line containing
      `marker`, or every line when none does: GNU sed `0,/marker/d`. What is
      left is a suffix of the file. */
  function CutThroughMarker(lines: seq<string>, marker: string): (rest: seq<string>)
    ensures |rest| <= |lines| && rest == lines[|lines| - |rest|..]
  {
    if lines == [] then []
    else if Contains(lines[0], marker) then lines[1..]
    else CutThroughMarker(lines[1..], marker)
  }

  /** sed `1,/marker/d` as the source runs it: line 1 is deleted whatever it
      holds, and the search for the closing marker starts on line 2. */
  function SedCut(lines: seq<string>, marker: string): (rest: seq<string>)
    ensures |rest| <= |lines| && rest == lines[|lines| - |rest|..]
  {
    if lines == [] then [] else CutThroughMarker(lines[1..], marker)
  }

  /** The lines after the first marker line are kept, unchanged. */
  lemma {:induction false} CutAtFirstMarker(before: seq<string>, markerLine: string, after: seq<string>, marker: string)
    requires forall i :: 0 <= i < |before| ==> !Contains(before[i], marker)
    requires Contains(markerLine, marker)
    ensures CutThroughMarker(before + [markerLine] + after, marker) == after
  {
    var lines := before + [markerLine] + after;
    if before == [] {
      assert lines == [markerLine] + after;
    } else {
      assert lines[1..] == before[1..] + [markerLine] + after;
      assert !Contains(lines[0], marker);
      CutAtFirstMarker(before[1..], markerLine, after, marker);
    }
  }

  /** Without a marker line the whole file is deleted. */
  lemma {:induction false} CutWithoutMarker(lines: seq<string>, marker: string)
    requires forall i :: 0 <= i < |lines| ==> !Contains(lines[i], marker)
    ensures CutThroughMarker(lines, marker) == []
  {
    if lines != [] {
      CutWithoutMarker(lines[1..], marker);
    }
  }

  /** Lines appended after a file that already holds a marker line survive
      the cut, unchanged and at the end. */
  lemma {:induction false} CutKeepsAppended(log: seq<string>, appended: seq<string>, marker: string)
    requires exists i :: 0 <= i < |log| && Contains(log[i], marker)
    ensures CutThroughMarker(log + appended, marker) == CutThroughMarker(log, marker) + appended
  {
    assert log != [];
    assert (log + appended)[1..] == log[1..] + appended;
    if !Contains(log[0], marker) {
      var i :| 0 <= i < |log| && Contains(log[i], marker);
      assert log[1..][i - 1] == log[i];
      CutKeepsAppended(log[1..], appended, marker);
    }
  }

  /** As written, the cut also ends at the first marker line, provided that
      line is not line 1. */
  lemma SedCutAtMarker(first: string, before: seq<string>, markerLine: string, after: seq<string>, marker: string)
    requires forall i :: 0 <= i < |before| ==> !Contains(before[i], marker)
    requires Contains(markerLine, marker)
    ensures SedCut([first] + before + [markerLine] + after, marker) == after
  {
    assert ([first] + before + [markerLine] + after)[1..] == before + [markerLine] + after;
    CutAtFirstMarker(before, markerLine, after, marker);
  }

  /** As written, when line 1 is the only line holding the marker, the search
      from line 2 finds nothing and sed deletes to the end of the file,
      including every line appended during the run; cutting from line 1 would
      keep them. */
  lemma SedCutLosesAppendedLines(first: string, rest: seq<string>, appended: seq<string>, marker: string)
    requires Contains(first, marker)
    requires forall i :: 0 <= i < |rest + appended| ==> !Contains((rest + appended)[i], marker)
    ensures SedCut([first] + rest + appended, marker) == []
    ensures CutThroughMarker([first] + rest + appended, marker) == rest + appended
  {
    assert ([first] + rest + appended)[1..] == rest + appended;
    CutWithoutMarker(rest + appended, marker);
  }

  // ---------------------------------------------------------------------
  // The reseed text.

  const OBJECT_BOUNDARY: string := "},{"
  const LINE_BOUNDARY: string := "}\n{"

  /** `s.split("},{").join("}\n{")`: every occurrence of the boundary, found
      left to right without overlap, is replaced. */
  function SplitJoinBoundaries(s: string): (r: string)
    ensures |r| == |s|
    decreases |s|
  {
    if OBJECT_BOUNDARY <= s then LINE_BOUNDARY + SplitJoinBoundaries(s[3..])
    else if s == [] then []
    else [s[0]] + SplitJoinBoundaries(s[1..])
  }

  /** `JSON.stringify` of an array whose elements stringify to `texts`. */
  function Stringify(texts: seq<string>): (r: string)
    ensures |r| >= 2 && r[0] == '[' && r[|r| - 1] == ']'
    ensures r[1..|r| - 1] == JoinWith(texts, ",")
  {
    var body := JoinWith(texts, ",");
    assert ("[" + body + "]")[1..|body| + 1] == body;
    "[" + body + "]"
  }

  /** The text written to the intermediate file (index.js:113-121): the
      array's JSON without its brackets, boundaries turned into line breaks,
      and a final newline. */
  function ReseedText(texts: seq<string>): (r: string)
    ensures |r| >= 1 && r[|r| - 1] == '\n'
  {
    var s := Stringify(texts);
    SplitJoinBoundaries(s[1..|s| - 1]) + "\n"
  }

  /** The JSON text of one object as `JSON.stringify` writes it: braces at
      both ends, no `},{` inside, and on one line (control characters in
      strings are escaped, and no indentation is asked for). */
  predicate ObjectText(t: string)
  {
    |t| >= 2 && t[0] == '{' && t[|t| - 1] == '}' && !Contains(t, OBJECT_BOUNDARY) && !Contains(t, "\n")
  }

  /** The lines the reseed text consists of: the objects one per line, or a
      single empty line when there is none. */
  function ReseedLines(texts: seq<string>): seq<string>
  {
    if texts == [] then [""] else texts
  }

  /** Dropping the first character of a prefix with no boundary leaves a
      prefix with no boundary. */
  lemma SkipsTail(a: string, b: string)
    requires a != []
    requires forall i :: 0 <= i < |a| ==> !(OBJECT_BOUNDARY <= (a + b)[i..])
    ensures forall i :: 0 <= i < |a[1..]| ==> !(OBJECT_BOUNDARY <= (a[1..] + b)[i..])
  {
    forall i | 0 <= i < |a[1..]|
      ensures !(OBJECT_BOUNDARY <= (a[1..] + b)[i..])
    {
      assert (a[1..] + b)[i..] == (a + b)[i + 1..];
    }
  }

  /** Away from a boundary the first character is copied. */
  lemma SplitJoinStep(s: string)
    requires s != [] && !(OBJECT_BOUNDARY <= s)
    ensures SplitJoinBoundaries(s) == [s[0]] + SplitJoinBoundaries(s[1..])
  {
  }

  /** Regrouping a character, a text and a tail. */
  lemma ConsSplice(c: char, t: string, x: string)
    ensures [c] + (t + x) == ([c] + t) + x
  {
  }

  lemma {:induction false} SplitJoinSkips(a: string, b: string)
    requires forall i :: 0 <= i < |a| ==> !(OBJECT_BOUNDARY <= (a + b)[i..])
    ensures SplitJoinBoundaries(a + b) == a + SplitJoinBoundaries(b)
    decreases |a|
  {
    if a == [] {
      assert a + b == b;
    } else {
      var s := a + b;
      assert s[0..] == s;
      SplitJoinStep(s);
      assert s[1..] == a[1..] + b;
      SkipsTail(a, b);
      SplitJoinSkips(a[1..], b);
      ConsSplice(a[0], a[1..], SplitJoinBoundaries(b));
      assert [a[0]] + a[1..] == a;
    }
  }

  /** No boundary starts inside an object text. */
  lemma NoBoundaryInside(t: string, i: nat)
    requires !Contains(t, OBJECT_BOUNDARY) && i <= |t|
    ensures !(OBJECT_BOUNDARY <= t[i..])
  {
    if OBJECT_BOUNDARY <= t[i..] {
      ContainsAt(t, OBJECT_BOUNDARY, i);
    }
  }

  lemma JoinStartsWithFirst(texts: seq<string>, sep: string)
    requires |texts| >= 1 && |texts[0]| >= 1
    ensures |JoinWith(texts, sep)| >= 1 && JoinWith(texts, sep)[0] == texts[0][0]
  {
  }

  /** Inside an object text followed by a comma, no boundary starts before
      the closing brace. */
  lemma NoBoundaryBeforeClose(t: string, rest: string)
    requires ObjectText(t)
    ensures forall i :: 0 <= i < |t| - 1 ==> !(OBJECT_BOUNDARY <= (t + "," + rest)[i..])
  {
    var s := t + "," + rest;
    forall i | 0 <= i < |t| - 1
      ensures !(OBJECT_BOUNDARY <= s[i..])
    {
      if i + 3 <= |t| {
        assert s[i..i + 3] == t[i..i + 3];
        NoBoundaryInside(t, i);
      } else {
        assert s[i + 1] == '}';
      }
    }
  }

  /** A boundary at the front is replaced by a line break. */
  lemma SplitJoinAtBoundary(rest: string)
    ensures SplitJoinBoundaries(OBJECT_BOUNDARY + rest) == LINE_BOUNDARY + SplitJoinBoundaries(rest)
  {
    assert (OBJECT_BOUNDARY + rest)[3..] == rest;
  }

  /** An opening brace at the front is copied. */
  lemma SplitJoinAtBrace(rest: string)
    ensures SplitJoinBoundaries("{" + rest) == "{" + SplitJoinBoundaries(rest)
  {
    assert ("{" + rest)[1..] == rest;
    assert ("{" + rest)[0] != OBJECT_BOUNDARY[0];
  }

  /** Joining an object text and the next with a comma puts a boundary
      between their braces. */
  lemma CommaSplice(t: string, j: string)
    requires |t| >= 1 && t[|t| - 1] == '}' && |j| >= 1 && j[0] == '{'
    ensures t + "," + j == t[..|t| - 1] + (OBJECT_BOUNDARY + j[1..])
  {
    var w := t[..|t| - 1] + (OBJECT_BOUNDARY + j[1..]);
    assert |w| == |t + "," + j|;
    forall i | 0 <= i < |w|
      ensures w[i] == (t + "," + j)[i]
    {
    }
  }

  /** A line boundary between two braces is the closing brace, a line break
      and the opening brace. */
  lemma LineSplice(u: string, y: string)
    ensures u + (LINE_BOUNDARY + y) == (u + "}") + "\n" + ("{" + y)
  {
    var w := u + (LINE_BOUNDARY + y);
    assert |w| == |(u + "}") + "\n" + ("{" + y)|;
    forall i | 0 <= i < |w|
      ensures w[i] == ((u + "}") + "\n" + ("{" + y))[i]
    {
    }
  }

  /** The boundary between an object text and the next object is the first
      one replaced. */
  lemma SplitJoinHead(t: string, j: string)
    requires ObjectText(t) && |j| >= 1 && j[0] == '{'
    ensures SplitJoinBoundaries(t + "," + j) == t + "\n" + SplitJoinBoundaries(j)
  {
    var u := t[..|t| - 1];
    var x := j[1..];
    var v := OBJECT_BOUNDARY + x;
    assert t == u + "}";
    assert j == "{" + x;
    CommaSplice(t, j);
    NoBoundaryBeforeClose(t, j);
    SplitJoinSkips(u, v);
    SplitJoinAtBoundary(x);
    SplitJoinAtBrace(x);
    LineSplice(u, SplitJoinBoundaries(x));
  }

  /** Replacing the boundaries in comma-joined object texts gives the texts
      joined by newlines. */
  lemma {:induction false} SplitJoinObjects(texts: seq<string>)
    requires forall k :: 0 <= k < |texts| ==> ObjectText(texts[k])
    ensures SplitJoinBoundaries(JoinWith(texts, ",")) == JoinWith(texts, "\n")
  {
    if |texts| == 1 {
      var t := texts[0];
      forall i | 0 <= i < |t|
        ensures !(OBJECT_BOUNDARY <= (t + "")[i..])
      {
        assert t + "" == t;
        NoBoundaryInside(t, i);
      }
      SplitJoinSkips(t, "");
      assert t + "" == t;
    } else if |texts| > 1 {
      var j := JoinWith(texts[1..], ",");
      JoinStartsWithFirst(texts[1..], ",");
      assert JoinWith(texts, ",") == texts[0] + "," + j;
      SplitJoinHead(texts[0], j);
      SplitJoinObjects(texts[1..]);
      assert JoinWith(texts, "\n") == texts[0] + "\n" + JoinWith(texts[1..], "\n");
    }
  }

  /** The reseed text is the object texts joined by newlines with a final
      newline; for no pending entries it is a single newline. */
  lemma ReseedTextJoinsLines(texts: seq<string>)
    requires forall k :: 0 <= k < |texts| ==> ObjectText(texts[k])
    ensures ReseedText(texts) == JoinWith(texts, "\n") + "\n"
    ensures texts == [] ==> ReseedText(texts) == "\n"
  {
    var s := Stringify(texts);
    assert s[1..|s| - 1] == JoinWith(texts, ",");
    SplitJoinObjects(texts);
  }

  /** The reseed text is a file whose lines are `ReseedLines(texts)`: it is
      written that way, and a line reader reads exactly those lines back. */
  lemma ReseedTextIsLines(texts: seq<string>)
    requires forall k :: 0 <= k < |texts| ==> ObjectText(texts[k])
    ensures ReseedText(texts) == Unlines(ReseedLines(texts))
    ensures Lines(ReseedText(texts)) == ReseedLines(texts)
  {
    ReseedTextJoinsLines(texts);
    if texts != [] {
      UnlinesIsJoin(texts);
    }
    OneLineEach(texts);
    LinesUnlines(ReseedLines(texts));
  }

  /** No reseed line holds a newline. */
  lemma OneLineEach(texts: seq<string>)
    requires forall k :: 0 <= k < |texts| ==> ObjectText(texts[k])
    ensures forall k :: 0 <= k < |ReseedLines(texts)| ==> !Contains(ReseedLines(texts)[k], "\n")
  {
    if texts == [] {
      assert !Contains("", "\n");
    }
  }
}
