/** The timetable form's text fields: parsing a comma-separated field on
    submit (`split(",")`, `trim`, `filter(Boolean)`) and re-joining a saved
    list with ", " on load. */
module Form {
  import opened View

  /** The characters `String.prototype.trim` strips: ECMAScript WhiteSpace
      (tab, vertical tab, form feed, no-break space, byte order mark and the
      space separators) and LineTerminator. */
  predicate IsSpace(c: char)
  {
    || c == '\t' || c == '\U{B}' || c == '\U{C}' || c == ' ' || c == '\U{A0}' || c == '\U{FEFF}'
    || c == '\U{1680}' || ('\U{2000}' <= c <= '\U{200A}') || c == '\U{202F}' || c == '\U{205F}'
    || c == '\U{3000}' || c == '\n' || c == '\r' || c == '\U{2028}' || c == '\U{2029}'
  }

  /** A string with no white space at either end. */
  predicate IsTrimmed(s: string)
  {
    s == [] || (!IsSpace(s[0]) && !IsSpace(s[|s| - 1]))
  }

  predicate AllSpace(s: string)
  {
    forall i :: 0 <= i < |s| ==> IsSpace(s[i])
  }

  /** Index of the first character at or after `i` that is not white
      space, or `|s|` if there is none. */
  function SkipSpace(s: string, i: nat): (k: nat)
    requires i <= |s|
    ensures i <= k <= |s|
    ensures forall j :: i <= j < k ==> IsSpace(s[j])
    ensures k < |s| ==> !IsSpace(s[k])
    decreases |s| - i
  {
    if i < |s| && IsSpace(s[i]) then SkipSpace(s, i + 1) else i
  }

  /** Index just past the last character of `s[lo..j]` that is not white
      space, or `lo` if there is none. */
  function SkipSpaceBack(s: string, lo: nat, j: nat): (k: nat)
    requires lo <= j <= |s|
    ensures lo <= k <= j
    ensures forall i :: k <= i < j ==> IsSpace(s[i])
    ensures k > lo ==> !IsSpace(s[k - 1])
    decreases j
  {
    if j > lo && IsSpace(s[j - 1]) then SkipSpaceBack(s, lo, j - 1) else j
  }

  /** Where the trimmed part of `s` starts and ends. */
  function TrimFrom(s: string): nat
  {
    SkipSpace(s, 0)
  }

  function TrimTo(s: string): (k: nat)
    ensures TrimFrom(s) <= k <= |s|
  {
    SkipSpaceBack(s, TrimFrom(s), |s|)
  }

  /** `s.trim()`: `s` without the white space at either end. */
  function Trim(s: string): (r: string)
    ensures IsTrimmed(r)
    ensures |r| <= |s|
  {
    s[TrimFrom(s)..TrimTo(s)]
  }

  /** `s` is some white space, the trimmed string, and more white space. */
  lemma TrimShape(s: string)
    ensures s == s[..TrimFrom(s)] + Trim(s) + s[TrimTo(s)..]
    ensures AllSpace(s[..TrimFrom(s)]) && AllSpace(s[TrimTo(s)..])
  {
    var lo, hi := TrimFrom(s), TrimTo(s);
    assert s == s[..lo] + s[lo..hi] + s[hi..];
  }

  /** Trimming keeps only characters of the input. */
  lemma TrimKeepsCharacters(s: string)
    ensures forall c :: c in Trim(s) ==> c in s
  {
    var r, lo := Trim(s), TrimFrom(s);
    forall c | c in r ensures c in s {
      var k :| 0 <= k < |r| && r[k] == c;
      assert s[lo + k] == c;
    }
  }

  /** Trimming empties exactly the strings made of white space alone. */
  lemma TrimEmpty(s: string)
    ensures Trim(s) == [] <==> AllSpace(s)
  {
    var lo, hi := TrimFrom(s), TrimTo(s);
    if lo < hi {
      assert !IsSpace(s[lo]);
    }
  }

  /** A string already trimmed is left as it is. */
  lemma TrimTrimmed(s: string)
    requires IsTrimmed(s)
    ensures Trim(s) == s
  {
    if s != [] {
      assert TrimFrom(s) == 0;
      assert TrimTo(s) == |s|;
    }
  }

  /** Trimming the space a ", " separator leaves before a clean item gives the
      item back. */
  lemma TrimSpaced(x: string)
    requires x != [] && IsTrimmed(x)
    ensures Trim(" " + x) == x
  {
    var s := " " + x;
    assert IsSpace(s[0]) && !IsSpace(s[1]);
    assert SkipSpace(s, 1) == 1;
    assert TrimFrom(s) == 1;
    assert s[|s| - 1] == x[|x| - 1];
    assert TrimTo(s) == |s|;
    assert s[1..] == x;
  }

  /** One space either side of a trimmed item is trimmed away. */
  lemma TrimPadded(x: string)
    requires x != [] && IsTrimmed(x)
    ensures Trim(" " + x + " ") == x
  {
    var s := " " + x + " ";
    assert IsSpace(s[0]) && !IsSpace(s[1]);
    assert SkipSpace(s, 1) == 1;
    assert TrimFrom(s) == 1;
    assert IsSpace(s[|s| - 1]) && s[|s| - 2] == x[|x| - 1];
    assert SkipSpaceBack(s, 1, |s| - 1) == |s| - 1;
    assert TrimTo(s) == |s| - 1;
    assert s[1..|s| - 1] == x;
  }

  /** `s.split(sep)`: the pieces between separators, always at least one. */
  function Split(s: string, sep: char): (pieces: seq<string>)
    ensures |pieces| >= 1
    ensures forall i :: 0 <= i < |pieces| ==> sep !in pieces[i]
  {
    if s == [] then [""]
    else
      var rest := Split(s[1..], sep);
      if s[0] == sep then [""] + rest
      else [[s[0]] + rest[0]] + rest[1..]
  }

  /** `xs.join(sep)`: the items in order with `sep` between neighbours, so
      the first item opens the result and the last one closes it. */
  function JoinWith(xs: seq<string>, sep: string): (r: string)
    ensures xs != [] ==> xs[0] <= r
  {
    if |xs| == 0 then ""
    else if |xs| == 1 then xs[0]
    else xs[0] + sep + JoinWith(xs[1..], sep)
  }

  /** The list separator the load path writes back into the form. */
  const ListSeparator: string := ", "

  function Join(xs: seq<string>): string
  {
    JoinWith(xs, ListSeparator)
  }

  /** Items without the separator, joined by it, split back into the same
      items: with `JoinSplit`, splitting and joining are inverse. */
  lemma {:induction false} SplitJoin(xs: seq<string>, sep: char)
    requires xs != [] && forall i :: 0 <= i < |xs| ==> sep !in xs[i]
    ensures Split(JoinWith(xs, [sep]), sep) == xs
  {
    if |xs| == 1 {
      SplitNoSeparator(xs[0], sep);
    } else {
      SplitJoin(xs[1..], sep);
      SplitAfterPiece(xs[0], JoinWith(xs[1..], [sep]), sep);
    }
  }

  /** `.filter(Boolean)` after `.map(s => s.trim())`. */
  function KeepTrimmed(pieces: seq<string>): (items: seq<string>)
    ensures |items| <= |pieces|
    ensures forall i :: 0 <= i < |items| ==> items[i] != "" && IsTrimmed(items[i])
    ensures (forall i :: 0 <= i < |pieces| ==> ',' !in pieces[i]) ==>
              forall i :: 0 <= i < |items| ==> ',' !in items[i]
  {
    if pieces == [] then []
    else
      var t := Trim(pieces[0]);
      TrimKeepsCharacters(pieces[0]);
      (if t == "" then [] else [t]) + KeepTrimmed(pieces[1..])
  }

  /** A list as parsing produces it: every item non-empty, trimmed and free
      of commas. */
  ghost predicate IsCleanList(xs: seq<string>)
  {
    forall i :: 0 <= i < |xs| ==> xs[i] != "" && IsTrimmed(xs[i]) && ',' !in xs[i]
  }

  /** One piece in front of the rest: its trimmed text, unless that is
      empty, comes before the kept items of the rest. */
  lemma KeepTrimmedCons(x: string, rest: seq<string>)
    ensures KeepTrimmed([x] + rest) ==
              (if Trim(x) == "" then [] else [Trim(x)]) + KeepTrimmed(rest)
  {
    assert ([x] + rest)[0] == x;
    assert ([x] + rest)[1..] == rest;
  }

  /** Trimming and filtering piece by piece: the kept items of two runs of
      pieces are those of the first run followed by those of the second. */
  lemma {:induction false} KeepTrimmedAppend(p: seq<string>, q: seq<string>)
    ensures KeepTrimmed(p + q) == KeepTrimmed(p) + KeepTrimmed(q)
  {
    if p == [] {
      assert p + q == q;
    } else {
      var x, rest := p[0], p[1..];
      KeepTrimmedAppend(rest, q);
      assert p == [x] + rest;
      AppendAssoc([x], rest, q);
      KeepTrimmedCons(x, rest + q);
      KeepTrimmedCons(x, rest);
      var h := if Trim(x) == "" then [] else [Trim(x)];
      AppendAssoc(h, KeepTrimmed(rest), KeepTrimmed(q));
    }
  }

  lemma AppendAssoc<T>(a: seq<T>, b: seq<T>, c: seq<T>)
    ensures a + (b + c) == (a + b) + c
  {
  }

  /** Parsing one comma-separated field: split on ",", trim each piece and
      drop the empty ones. A field without a comma is a single piece: its
      trimmed text, or nothing when that is empty. */
  function ParseList(raw: string): (items: seq<string>)
    ensures ',' !in raw ==> items == if Trim(raw) == "" then [] else [Trim(raw)]
  {
    SplitNoSeparator(raw, ',');
    KeepTrimmed(Split(raw, ','))
  }

  /** Parsing keeps the order of the pieces: the items before the first
      comma come first, then the items of the rest of the field. */
  lemma ParseListAppend(a: string, b: string)
    requires ',' !in a
    ensures ParseList(a + [','] + b) == ParseList(a) + ParseList(b)
  {
    SplitAfterPiece(a, b, ',');
    SplitNoSeparator(a, ',');
    KeepTrimmedAppend([a], Split(b, ','));
  }

  /** Every parsed item is non-empty, trimmed and free of commas. */
  lemma ParsedListIsClean(raw: string)
    ensures IsCleanList(ParseList(raw))
  {
  }

  /** Three pieces without the separator, joined by it, split back apart. */
  lemma SplitThree(a: string, b: string, c: string, sep: char)
    requires sep !in a && sep !in b && sep !in c
    ensures Split(a + [sep] + b + [sep] + c, sep) == [a, b, c]
  {
    assert a + [sep] + b + [sep] + c == a + [sep] + (b + [sep] + c);
    SplitAfterPiece(a, b + [sep] + c, sep);
    SplitAfterPiece(b, c, sep);
    SplitNoSeparator(c, sep);
  }

  /** The pieces of the example field. */
  lemma ExamplePieces(raw: string)
    requires raw == " Math ,  , English"
    ensures Split(raw, ',') == [" Math ", "  ", " English"]
  {
    var a, b, c := " Math ", "  ", " English";
    assert ',' !in a && ',' !in b && ',' !in c;
    assert raw == a + [','] + b + [','] + c;
    SplitThree(a, b, c, ',');
  }

  /** Spaces around a piece are trimmed and an all-space piece dropped. */
  lemma ParseExample(raw: string)
    requires raw == " Math ,  , English"
    ensures ParseList(raw) == ["Math", "English"]
  {
    var a, b, c := " Math ", "  ", " English";
    ExamplePieces(raw);
    assert Trim(a) == "Math" by {
      assert a == " " + "Math" + " ";
      TrimPadded("Math");
    }
    assert Trim(b) == "" by {
      assert AllSpace(b);
      TrimEmpty(b);
    }
    assert Trim(c) == "English" by {
      assert c == " " + "English";
      TrimSpaced("English");
    }
    assert [c][1..] == [] && [b, c][1..] == [c] && [a, b, c][1..] == [b, c];
    assert KeepTrimmed([c]) == ["English"];
    assert KeepTrimmed([b, c]) == ["English"];
  }

  /** Splitting undoes joining: the pieces of `s` joined back with the
      separator give `s` again. */
  lemma {:induction false} JoinSplit(s: string, sep: char)
    ensures JoinWith(Split(s, sep), [sep]) == s
  {
    if s != [] {
      var rest := Split(s[1..], sep);
      JoinSplit(s[1..], sep);
      if s[0] == sep {
        assert Split(s, sep) == [""] + rest;
        assert ([""] + rest)[1..] == rest;
      } else {
        var pieces := Split(s, sep);
        assert pieces == [[s[0]] + rest[0]] + rest[1..];
        if |rest| == 1 {
          assert pieces == [[s[0]] + rest[0]];
        } else {
          assert pieces[1..] == rest[1..];
          assert JoinWith(rest, [sep]) == rest[0] + [sep] + JoinWith(rest[1..], [sep]);
        }
      }
    }
  }

  /** A string without the separator splits into itself alone. */
  lemma {:induction false} SplitNoSeparator(a: string, sep: char)
    ensures sep !in a ==> Split(a, sep) == [a]
  {
    if a != [] && sep !in a {
      SplitNoSeparator(a[1..], sep);
      assert a[0] != sep;
      assert [a[0]] + a[1..] == a;
    }
  }

  /** A leading piece without the separator splits off on its own. */
  lemma {:induction false} SplitAfterPiece(a: string, b: string, sep: char)
    requires sep !in a
    ensures Split(a + [sep] + b, sep) == [a] + Split(b, sep)
  {
    if a == [] {
      assert a + [sep] + b == [sep] + b;
      assert ([sep] + b)[1..] == b;
    } else {
      var s := a + [sep] + b;
      SplitAfterPiece(a[1..], b, sep);
      assert s[0] == a[0] != sep;
      assert s[1..] == a[1..] + [sep] + b;
      assert [a[0]] + a[1..] == a;
    }
  }

  /** Each item after the first as it reads after a ", " separator. */
  function Spaced(ys: seq<string>): (zs: seq<string>)
    ensures |zs| == |ys|
  {
    if ys == [] then [] else [" " + ys[0]] + Spaced(ys[1..])
  }

  /** Splitting `pre + Join(xs)` on "," gives `pre + xs[0]` followed by the
      other items, each behind the space of the separator. */
  lemma {:induction false} SplitJoined(pre: string, xs: seq<string>)
    requires xs != [] && ',' !in pre && IsCleanList(xs)
    ensures Split(pre + Join(xs), ',') == [pre + xs[0]] + Spaced(xs[1..])
    decreases |xs|
  {
    if |xs| == 1 {
      assert pre + Join(xs) == pre + xs[0];
      SplitNoSeparator(pre + xs[0], ',');
      assert xs[1..] == [];
    } else {
      var rest := xs[1..];
      assert IsCleanList(rest) by {
        forall i | 0 <= i < |rest| ensures rest[i] != "" && IsTrimmed(rest[i]) && ',' !in rest[i] {
          assert rest[i] == xs[i + 1];
        }
      }
      assert pre + Join(xs) == (pre + xs[0]) + [','] + (" " + Join(rest));
      SplitAfterPiece(pre + xs[0], " " + Join(rest), ',');
      SplitJoined(" ", rest);
      assert Spaced(rest) == [" " + rest[0]] + Spaced(rest[1..]);
    }
  }

  /** Trimming and filtering the separator-spaced items of a clean list
      gives the list back. */
  lemma {:induction false} KeepSpaced(ys: seq<string>)
    requires IsCleanList(ys)
    ensures KeepTrimmed(Spaced(ys)) == ys
  {
    if ys != [] {
      TrimSpaced(ys[0]);
      var rest := ys[1..];
      assert IsCleanList(rest) by {
        forall i | 0 <= i < |rest| ensures rest[i] != "" && IsTrimmed(rest[i]) && ',' !in rest[i] {
          assert rest[i] == ys[i + 1];
        }
      }
      KeepSpaced(rest);
      assert Spaced(ys)[1..] == Spaced(rest);
    }
  }

  /** Re-joining a list with ", " and parsing the field again gives the list
      back exactly when it is a list parsing could have produced. */
  lemma ParseJoinRoundTrip(xs: seq<string>)
    ensures ParseList(Join(xs)) == xs <==> IsCleanList(xs)
  {
    ParsedListIsClean(Join(xs));
    if IsCleanList(xs) {
      ParseJoined(xs);
    }
  }

  /** The forward half of the round trip. */
  lemma ParseJoined(xs: seq<string>)
    requires IsCleanList(xs)
    ensures ParseList(Join(xs)) == xs
  {
    if xs == [] {
      assert Join(xs) == "";
      assert Split("", ',') == [""];
      assert Trim("") == "";
    } else {
      SplitJoined("", xs);
      assert "" + Join(xs) == Join(xs);
      assert "" + xs[0] == xs[0];
      var rest := xs[1..];
      assert IsCleanList(rest) by {
        forall i | 0 <= i < |rest| ensures rest[i] != "" && IsTrimmed(rest[i]) && ',' !in rest[i] {
          assert rest[i] == xs[i + 1];
        }
      }
      KeepSpaced(rest);
      TrimTrimmed(xs[0]);
      var pieces := [xs[0]] + Spaced(rest);
      assert pieces[1..] == Spaced(rest);
      assert KeepTrimmed(pieces) == [xs[0]] + KeepTrimmed(Spaced(rest));
    }
  }

  /** The three form fields as text. */
  datatype Fields = Fields(studentClass: string, subjects: string, activities: string)

  /** The request built on submit: the class label as typed, the two lists
      parsed. */
  function RequestOf(fields: Fields): (request: Request)
    ensures request.studentClass == fields.studentClass
    ensures IsCleanList(request.subjects) && IsCleanList(request.activities)
  {
    ParsedListIsClean(fields.subjects);
    ParsedListIsClean(fields.activities);
    Request(fields.studentClass, ParseList(fields.subjects), ParseList(fields.activities))
  }

  /** The fields the load path fills in from a request: the class label as
      saved and each list joined with ", ", which parses back to the list
      exactly when the list is clean. */
  function FieldsOf(request: Request): (fields: Fields)
    ensures fields.studentClass == request.studentClass
    ensures ParseList(fields.subjects) == request.subjects <==> IsCleanList(request.subjects)
    ensures ParseList(fields.activities) == request.activities <==> IsCleanList(request.activities)
  {
    ParseJoinRoundTrip(request.subjects);
    ParseJoinRoundTrip(request.activities);
    Fields(request.studentClass, Join(request.subjects), Join(request.activities))
  }

  /** Submitting the fields filled in from a request gives the same request
      back exactly when both its lists are clean. */
  lemma ResubmitLoadedFields(request: Request)
    ensures RequestOf(FieldsOf(request)) == request
            <==> IsCleanList(request.subjects) && IsCleanList(request.activities)
  {
    ParseJoinRoundTrip(request.subjects);
    ParseJoinRoundTrip(request.activities);
  }
}
