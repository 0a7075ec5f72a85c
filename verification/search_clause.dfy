/**
 The search clause of the blast clearance script: a disjunction that selects
 the push-back polygons whose identifier is one of the requested blocks.

 Each identifier `id` becomes the term
   `BlockInventory.dbo.PushBackPolygon.PushBackPolygonId = id`
 with the identifier inserted verbatim (no quoting, no escaping), and the
 terms are joined by " OR " in input order. This module gives the clause as
 a pure function, its Python-style split and count on the separator, a
 parser that recovers the identifiers, and the lemmas that tie them together.
 */
module SearchClause {

  datatype Option<T> = None | Some(value: T)

  /** The database, schema-qualified table and column every term compares. */
  const Database: string := "BlockInventory"
  const Table: string := "PushBackPolygon"
  const Column: string := "PushBackPolygonId"

  /** The fully qualified field every term compares against, then " = ". */
  const FieldPrefix: string := Database + ".dbo." + Table + "." + Column + " = "

  /** The text written between two consecutive terms. */
  const Separator: string := " OR "

  /** No identifier in `ids` contains a capital O. When block identifiers
      are integer keys their decimal text satisfies this; it is enough to
      keep an identifier from completing a spurious " OR " of its own. */
  predicate FreeOfO(ids: seq<string>)
  {
    forall i :: 0 <= i < |ids| ==> 'O' !in ids[i]
  }

  /** The term for one identifier: the fixed field prefix, then the
      identifier text exactly as given. */
  function Term(id: string): string
  {
    FieldPrefix + id
  }

  /** A term is the field prefix followed by the identifier verbatim, so the
      identifier can be read back from it and distinct identifiers give
      distinct terms. */
  lemma TermIsVerbatim(id: string, other: string)
    ensures FieldPrefix <= Term(id)
    ensures Term(id)[|FieldPrefix|..] == id
    ensures Term(id) == Term(other) <==> id == other
  {
    assert Term(id)[..|FieldPrefix|] == FieldPrefix;
    if Term(id) == Term(other) {
      assert Term(other)[|FieldPrefix|..] == other;
    }
  }

  /** One term per identifier, in input order, duplicates kept. */
  function Terms(ids: seq<string>): (ts: seq<string>)
    ensures |ts| == |ids|
    ensures forall i :: 0 <= i < |ids| ==> ts[i] == Term(ids[i])
  {
    seq(|ids|, i requires 0 <= i < |ids| => Term(ids[i]))
  }

  /** `parts` joined by `sep`: the separator goes between consecutive parts,
      never before the first or after the last. */
  function Join(parts: seq<string>, sep: string): string
  {
    if |parts| == 0 then ""
    else if |parts| == 1 then parts[0]
    else parts[0] + sep + Join(parts[1..], sep)
  }

  /** The search clause for `ids`: their terms joined by " OR ". It is empty
      exactly when there are no identifiers, starts with the first term and
      ends with the last term: no separator is written after the last term. */
  function Clause(ids: seq<string>): (c: string)
    ensures c == "" <==> |ids| == 0
    ensures |ids| > 0 ==> Term(ids[0]) <= c
    ensures |ids| > 0 ==> |Term(ids[|ids| - 1])| <= |c|
    ensures |ids| > 0 ==> c[|c| - |Term(ids[|ids| - 1])|..] == Term(ids[|ids| - 1])
  {
    var ts := Terms(ids);
    if |ids| == 0 then Join(ts, Separator)
    else
      JoinEnds(ts, Separator);
      assert |ts[0]| >= |FieldPrefix| > 0;
      Join(ts, Separator)
  }

  /** What the script's loop has written after handling `ids`: each term
      followed by " OR ", in order. */
  function SeparatedTerms(ids: seq<string>): string
  {
    if |ids| == 0 then ""
    else SeparatedTerms(ids[..|ids| - 1]) + Term(ids[|ids| - 1]) + Separator
  }

  /** Python's `s.split(" OR ")`: the pieces between the non-overlapping
      occurrences of the separator, found from left to right. */
  function SplitOnSeparator(s: string): (parts: seq<string>)
    ensures |parts| >= 1
    decreases |s|
  {
    if |s| < |Separator| then [s]
    else if s[..|Separator|] == Separator then [""] + SplitOnSeparator(s[|Separator|..])
    else
      var rest := SplitOnSeparator(s[1..]);
      [[s[0]] + rest[0]] + rest[1..]
  }

  /** Python's `s.count(" OR ")`: the number of non-overlapping occurrences
      of the separator, found from left to right. */
  function SeparatorCount(s: string): nat
    decreases |s|
  {
    if |s| < |Separator| then 0
    else if s[..|Separator|] == Separator then 1 + SeparatorCount(s[|Separator|..])
    else SeparatorCount(s[1..])
  }

  /** The identifier a term was built from, if it is a term at all. */
  function ParseTerm(t: string): (r: Option<string>)
    ensures r.Some? <==> FieldPrefix <= t
    ensures r.Some? ==> Term(r.value) == t
  {
    if |FieldPrefix| <= |t| && t[..|FieldPrefix|] == FieldPrefix then
      assert t == t[..|FieldPrefix|] + t[|FieldPrefix|..];
      Some(t[|FieldPrefix|..])
    else None
  }

  /** The identifiers of a sequence of terms, or None if one is not a term. */
  function ParseTerms(ts: seq<string>): (r: Option<seq<string>>)
    ensures r.Some? ==> |r.value| == |ts|
    ensures r.Some? ==> forall i :: 0 <= i < |ts| ==> Term(r.value[i]) == ts[i]
    ensures r.None? <==> exists i :: 0 <= i < |ts| && !(FieldPrefix <= ts[i])
  {
    if |ts| == 0 then Some([])
    else
      var head := ParseTerm(ts[0]);
      var tail := ParseTerms(ts[1..]);
      if head.None? then None
      else if tail.None? then
        var i :| 0 <= i < |ts[1..]| && !(FieldPrefix <= ts[1..][i]);
        assert ts[1..][i] == ts[i + 1];
        None
      else
        var r := [head.value] + tail.value;
        assert forall i :: 1 <= i < |ts| ==> ts[i] == ts[1..][i - 1];
        Some(r)
  }

  /** Recovers the identifier list from a search clause: the empty clause
      stands for no identifiers, any other clause is split on " OR " and
      each piece must be a term. */
  function ParseClause(c: string): (r: Option<seq<string>>)
  {
    if c == "" then Some([]) else ParseTerms(SplitOnSeparator(c))
  }

  // ---------------------------------------------------------------------
  // The loop's view of the clause
  // ---------------------------------------------------------------------

  /** Handling one more identifier appends its term and " OR " to what the
      loop has written so far. */
  lemma SeparatedTermsSnoc(ids: seq<string>, k: nat)
    requires k < |ids|
    ensures SeparatedTerms(ids[..k + 1]) == SeparatedTerms(ids[..k]) + (Term(ids[k]) + Separator)
  {
    assert ids[..k + 1][..k] == ids[..k];
  }

  /** Appending a part to a non-empty join adds one separator and the part. */
  lemma {:induction false} JoinSnoc(parts: seq<string>, p: string, sep: string)
    requires |parts| > 0
    ensures Join(parts + [p], sep) == Join(parts, sep) + sep + p
    decreases |parts|
  {
    if |parts| == 1 {
      assert parts + [p] == [parts[0], p];
      assert (parts + [p])[1..] == [p];
    } else {
      assert (parts + [p])[1..] == parts[1..] + [p];
      JoinSnoc(parts[1..], p, sep);
    }
  }

  /** The two halves of a concatenation can be sliced back out of it. */
  lemma SliceConcat(a: string, b: string)
    ensures (a + b)[..|a|] == a
    ensures (a + b)[|a|..] == b
  {
  }

  /** A join starts with its first part and ends with its last part. */
  lemma {:induction false} JoinEnds(parts: seq<string>, sep: string)
    requires |parts| > 0
    ensures parts[0] <= Join(parts, sep)
    ensures |parts[|parts| - 1]| <= |Join(parts, sep)|
    ensures Join(parts, sep)[|Join(parts, sep)| - |parts[|parts| - 1]|..] == parts[|parts| - 1]
  {
    var n := |parts|;
    if n > 1 {
      var tail := sep + Join(parts[1..], sep);
      assert Join(parts, sep) == parts[0] + tail;
      SliceConcat(parts[0], tail);
      var init := Join(parts[..n - 1], sep) + sep;
      assert parts == parts[..n - 1] + [parts[n - 1]];
      JoinSnoc(parts[..n - 1], parts[n - 1], sep);
      assert Join(parts, sep) == init + parts[n - 1];
      SliceConcat(init, parts[n - 1]);
    }
  }

  /** Extending the identifier list by one adds " OR " and the new term. */
  lemma ClauseSnoc(ids: seq<string>, id: string)
    requires |ids| > 0
    ensures Clause(ids + [id]) == Clause(ids) + Separator + Term(id)
  {
    assert Terms(ids + [id]) == Terms(ids) + [Term(id)];
    JoinSnoc(Terms(ids), Term(id), Separator);
  }

  /** The clause is what the script writes: every term but the last followed
      by " OR " (the first term and the loop's terms), then the last term on
      its own. */
  lemma {:induction false} ClauseAsWritten(ids: seq<string>)
    requires |ids| > 0
    ensures Clause(ids) == SeparatedTerms(ids[..|ids| - 1]) + Term(ids[|ids| - 1])
    decreases |ids|
  {
    var n := |ids|;
    if n == 1 {
      assert ids[..0] == [];
      assert Clause(ids) == Join([Term(ids[0])], Separator);
    } else {
      var init := ids[..n - 1];
      assert ids == init + [ids[n - 1]];
      ClauseSnoc(init, ids[n - 1]);
      ClauseAsWritten(init);
      assert init[..n - 2] == ids[..n - 2];
      assert init[n - 2] == ids[n - 2];
      assert ids[..n - 1][..n - 2] == ids[..n - 2];
    }
  }

  /** A single identifier gives its term alone, with no separator written. */
  lemma ClauseOfOne(id: string)
    ensures Clause([id]) == FieldPrefix + id
    ensures 'O' !in id ==> SeparatorCount(Clause([id])) == 0
  {
    assert Clause([id]) == Term(id);
    if 'O' !in id {
      FieldPrefixFreeOfO();
      assert 'O' !in Term(id);
      SplitWithoutO(Term(id));
      CountIsSplitLength(Term(id));
    }
  }

  // ---------------------------------------------------------------------
  // Splitting and counting
  // ---------------------------------------------------------------------

  lemma FieldPrefixFreeOfO()
    ensures 'O' !in FieldPrefix
  {
    assert 'O' !in Database;
    assert 'O' !in Table;
    assert 'O' !in Column;
  }

  /** Counting the separators is splitting on them: k separators leave
      k + 1 pieces. */
  lemma {:induction false} CountIsSplitLength(s: string)
    ensures SeparatorCount(s) == |SplitOnSeparator(s)| - 1
    decreases |s|
  {
    if |s| < |Separator| {
    } else if s[..|Separator|] == Separator {
      CountIsSplitLength(s[|Separator|..]);
    } else {
      CountIsSplitLength(s[1..]);
    }
  }

  /** Text without a capital O holds no separator and splits into itself. */
  lemma {:induction false} SplitWithoutO(p: string)
    requires 'O' !in p
    ensures SplitOnSeparator(p) == [p]
    decreases |p|
  {
    if |Separator| <= |p| {
      assert p[1] != Separator[1];
      assert p[..|Separator|] != Separator;
      assert 'O' !in p[1..] by {
        forall c | c in p[1..] ensures c != 'O' {
          assert c in p;
        }
      }
      SplitWithoutO(p[1..]);
      assert [p[0]] + p[1..] == p;
    }
  }

  /** A piece without a capital O followed by " OR " is split off whole. */
  lemma {:induction false} SplitAtSeparator(p: string, rest: string)
    requires 'O' !in p
    ensures SplitOnSeparator(p + Separator + rest) == [p] + SplitOnSeparator(rest)
    decreases |p|
  {
    var s := p + Separator + rest;
    if |p| == 0 {
      assert s[..|Separator|] == Separator;
      assert s[|Separator|..] == rest;
    } else {
      assert s[1] != Separator[1] by {
        if |p| >= 2 {
          assert s[1] == p[1];
        } else {
          assert s[1] == Separator[0];
        }
      }
      assert s[..|Separator|] != Separator;
      assert 'O' !in p[1..] by {
        forall c | c in p[1..] ensures c != 'O' {
          assert c in p;
        }
      }
      assert s[1..] == p[1..] + Separator + rest;
      SplitAtSeparator(p[1..], rest);
      assert [p[0]] + p[1..] == p;
    }
  }

  /** Joining O-free parts with " OR " and splitting again gives the parts. */
  lemma {:induction false} SplitJoin(parts: seq<string>)
    requires |parts| > 0
    requires forall i :: 0 <= i < |parts| ==> 'O' !in parts[i]
    ensures SplitOnSeparator(Join(parts, Separator)) == parts
    decreases |parts|
  {
    if |parts| == 1 {
      SplitWithoutO(parts[0]);
    } else {
      SplitAtSeparator(parts[0], Join(parts[1..], Separator));
      SplitJoin(parts[1..]);
      assert [parts[0]] + parts[1..] == parts;
    }
  }

  /** The terms of O-free identifiers are O-free. */
  lemma TermsFreeOfO(ids: seq<string>)
    requires FreeOfO(ids)
    ensures forall i :: 0 <= i < |Terms(ids)| ==> 'O' !in Terms(ids)[i]
  {
    FieldPrefixFreeOfO();
    forall i | 0 <= i < |ids| ensures 'O' !in Term(ids[i]) {
      assert Term(ids[i]) == FieldPrefix + ids[i];
    }
  }

  /** Parsing the terms of a list gives the list back. */
  lemma ParseTermsOfTerms(ids: seq<string>)
    ensures ParseTerms(Terms(ids)) == Some(ids)
  {
    var ts := Terms(ids);
    var r := ParseTerms(ts);
    if r.None? {
      var i :| 0 <= i < |ts| && !(FieldPrefix <= ts[i]);
      TermIsVerbatim(ids[i], ids[i]);
      assert false;
    }
    forall i | 0 <= i < |ids| ensures r.value[i] == ids[i] {
      TermIsVerbatim(r.value[i], ids[i]);
    }
    assert r.value == ids;
  }

  // ---------------------------------------------------------------------
  // The properties the script relies on
  // ---------------------------------------------------------------------

  /** The clause determines the identifier list exactly: parsing it returns
      every identifier, in input order, duplicates included. */
  lemma ParseClauseRoundTrip(ids: seq<string>)
    requires FreeOfO(ids)
    ensures ParseClause(Clause(ids)) == Some(ids)
  {
    if |ids| > 0 {
      TermsFreeOfO(ids);
      SplitJoin(Terms(ids));
      ParseTermsOfTerms(ids);
    }
  }

  /** A clause over n >= 1 identifiers holds exactly n - 1 separators, as
      Python's `str.count(" OR ")` would count them. */
  lemma ClauseSeparatorCount(ids: seq<string>)
    requires FreeOfO(ids)
    ensures SeparatorCount(Clause(ids)) == if |ids| == 0 then 0 else |ids| - 1
  {
    if |ids| > 0 {
      TermsFreeOfO(ids);
      SplitJoin(Terms(ids));
      CountIsSplitLength(Clause(ids));
    }
  }

  /** For O-free identifiers the clause does not end in " OR ": its last
      four characters lie inside the last term, which holds no capital O. */
  lemma ClauseNoTrailingSeparator(ids: seq<string>)
    requires FreeOfO(ids)
    requires |ids| > 0
    ensures !(|Separator| <= |Clause(ids)| && Clause(ids)[|Clause(ids)| - |Separator|..] == Separator)
  {
    var c := Clause(ids);
    var t := Term(ids[|ids| - 1]);
    TermsFreeOfO(ids);
    assert Terms(ids)[|ids| - 1] == t;
    assert 'O' !in t;
    assert |t| >= |FieldPrefix| >= |Separator|;
    assert c[|c| - |t|..] == t;
    var tail := c[|c| - |Separator|..];
    assert tail[1] == t[|t| - |Separator| + 1];
    assert t[|t| - |Separator| + 1] in t;
    assert tail[1] != Separator[1];
  }

  /** Identifiers are inserted unescaped, so one whose text contains " OR "
      adds a separator of its own: the clause for the single identifier
      "1 OR 1=1" holds one " OR " and no longer parses back to that list. */
  lemma InjectedSeparator()
    ensures SeparatorCount(Clause(["1 OR 1=1"])) == 1
    ensures ParseClause(Clause(["1 OR 1=1"])) == None
  {
    var head := FieldPrefix + "1";
    var c := Clause(["1 OR 1=1"]);
    assert c == Term("1 OR 1=1");
    assert c == head + Separator + "1=1";
    FieldPrefixFreeOfO();
    assert 'O' !in head;
    SplitAtSeparator(head, "1=1");
    assert SplitOnSeparator(c) == [head, "1=1"];
    CountIsSplitLength(c);
    assert ParseTerm("1=1") == None;
  }
}
