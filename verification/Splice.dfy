/** The text splicer of scripts/vendor_fastmcp.py: edits carry offsets into the original text and are
    applied from right to left, each to the text the previous one left. */
module Splice {
  import opened Wrappers

  datatype Edit = Edit(start: nat, stop: nat, text: string)

  /** Spans of statements: not empty, inside the text, and no two of them overlapping. */
  ghost predicate Spans(source: string, edits: seq<Edit>) {
    && (forall k :: 0 <= k < |edits| ==> edits[k].start < edits[k].stop <= |source|)
    && (forall j, k :: 0 <= j < |edits| && 0 <= k < |edits| && j != k ==>
          edits[j].stop <= edits[k].start || edits[k].stop <= edits[j].start)
  }

  // ---- simultaneous substitution -------------------------------------------------------------------------

  function EditAt(edits: seq<Edit>, pos: nat): (found: Option<Edit>)
    ensures found.Some? ==> found.value in edits && found.value.start == pos
    ensures found.None? ==> forall e :: e in edits ==> e.start != pos
  {
    if edits == [] then None
    else if edits[0].start == pos then Some(edits[0])
    else EditAt(edits[1..], pos)
  }

  /** The text from a position on with every span replaced: reads the original left to right and never
      looks at a replacement again. */
  function Substituted(source: string, edits: seq<Edit>, pos: nat): string
    decreases |source| - pos
  {
    if pos >= |source| then []
    else match EditAt(edits, pos)
      case Some(e) => e.text + Substituted(source, edits, if e.stop > pos then e.stop else pos + 1)
      case None => [source[pos]] + Substituted(source, edits, pos + 1)
  }

  lemma {:induction false} UntouchedStretch(source: string, edits: seq<Edit>, lo: nat, hi: nat)
    requires lo <= hi <= |source| && forall e :: e in edits ==> !(lo <= e.start < hi)
    ensures Substituted(source, edits, lo) == source[lo..hi] + Substituted(source, edits, hi)
    decreases hi - lo
  {
    hide EditAt;
    if lo == hi {
      assert source[lo..hi] == [];
    } else {
      assert EditAt(edits, lo).None?;
      var rest := Substituted(source, edits, hi);
      UntouchedStretch(source, edits, lo + 1, hi);
      assert source[lo..hi] == [source[lo]] + source[lo + 1..hi];
      assert [source[lo]] + (source[lo + 1..hi] + rest) == source[lo..hi] + rest;
    }
  }

  // ---- the order edits are applied in -----------------------------------------------------------------------

  predicate Descending(edits: seq<Edit>) {
    forall j, k :: 0 <= j < k < |edits| ==> edits[j].start >= edits[k].start
  }

  function Insert(e: Edit, edits: seq<Edit>): seq<Edit> {
    if edits == [] || e.start >= edits[0].start then [e] + edits
    else [edits[0]] + Insert(e, edits[1..])
  }

  function Sorted(edits: seq<Edit>): seq<Edit> {
    if edits == [] then [] else Insert(edits[0], Sorted(edits[1..]))
  }

  lemma {:induction false} InsertKeepsAll(e: Edit, edits: seq<Edit>)
    ensures multiset(Insert(e, edits)) == multiset(edits) + multiset{e}
  {
    if edits == [] || e.start >= edits[0].start {
    } else {
      InsertKeepsAll(e, edits[1..]);
      assert edits == [edits[0]] + edits[1..];
    }
  }

  lemma InsertMember(e: Edit, edits: seq<Edit>, x: Edit)
    ensures x in Insert(e, edits) <==> x == e || x in edits
  {
    InsertKeepsAll(e, edits);
    assert x in Insert(e, edits) <==> x in multiset(Insert(e, edits));
    assert x in edits <==> x in multiset(edits);
  }

  lemma {:induction false} InsertKeepsOrder(e: Edit, edits: seq<Edit>)
    requires Descending(edits)
    ensures Descending(Insert(e, edits))
  {
    if edits == [] || e.start >= edits[0].start {
    } else {
      var rest := Insert(e, edits[1..]);
      InsertKeepsOrder(e, edits[1..]);
      forall k | 0 <= k < |rest| ensures rest[k].start <= edits[0].start {
        InsertMember(e, edits[1..], rest[k]);
      }
    }
  }

  /** sorted(edits, reverse=True), as far as the starts go. */
  lemma {:induction false} SortedIsOrdered(edits: seq<Edit>)
    ensures Descending(Sorted(edits)) && multiset(Sorted(edits)) == multiset(edits)
  {
    if edits != [] {
      SortedIsOrdered(edits[1..]);
      InsertKeepsOrder(edits[0], Sorted(edits[1..]));
      InsertKeepsAll(edits[0], Sorted(edits[1..]));
      assert edits == [edits[0]] + edits[1..];
    }
  }

  /** Which span starts where does not depend on the order of the edits. */
  lemma SameEditAt(source: string, a: seq<Edit>, b: seq<Edit>, pos: nat)
    requires Spans(source, a) && multiset(a) == multiset(b)
    ensures EditAt(a, pos) == EditAt(b, pos)
  {
    forall e ensures e in a <==> e in b {
      assert e in a <==> e in multiset(a);
      assert e in b <==> e in multiset(b);
    }
    if EditAt(a, pos).Some? && EditAt(b, pos).Some? {
      var d, e := EditAt(a, pos).value, EditAt(b, pos).value;
      assert d in a && e in a;
      var j :| 0 <= j < |a| && a[j] == d;
      var k :| 0 <= k < |a| && a[k] == e;
    }
  }

  /** The substitution depends only on the set of edits. */
  lemma {:induction false} OrderIsIrrelevant(source: string, a: seq<Edit>, b: seq<Edit>, pos: nat)
    requires Spans(source, a) && multiset(a) == multiset(b)
    ensures Substituted(source, a, pos) == Substituted(source, b, pos)
    decreases |source| - pos
  {
    if pos < |source| {
      SameEditAt(source, a, b, pos);
      match EditAt(a, pos)
      case Some(e) => OrderIsIrrelevant(source, a, b, if e.stop > pos then e.stop else pos + 1);
      case None => OrderIsIrrelevant(source, a, b, pos + 1);
    }
  }

  lemma {:induction false} MultisetKeepsSpans(source: string, a: seq<Edit>, b: seq<Edit>)
    requires Spans(source, a) && multiset(a) == multiset(b)
    ensures Spans(source, b)
  {
    forall k | 0 <= k < |b| ensures b[k].start < b[k].stop <= |source| {
      assert b[k] in multiset(b);
      assert b[k] in a;
    }
    forall j, k | 0 <= j < |b| && 0 <= k < |b| && j != k
      ensures b[j].stop <= b[k].start || b[k].stop <= b[j].start
    {
      if b[j] == b[k] {
        TwiceIn(b, j, k);
        SingleIn(source, a, b[j]);
      } else {
        assert b[j] in multiset(b) && b[k] in multiset(b);
        assert b[j] in a && b[k] in a;
      }
    }
  }

  lemma TwiceIn(s: seq<Edit>, j: int, k: int)
    requires 0 <= j < |s| && 0 <= k < |s| && j != k && s[j] == s[k]
    ensures multiset(s)[s[j]] >= 2
  {
    var lo, hi := if j < k then j else k, if j < k then k else j;
    assert s == s[..lo] + [s[lo]] + s[lo + 1..hi] + [s[hi]] + s[hi + 1..];
  }

  lemma HeadIsAlone(source: string, s: seq<Edit>)
    requires Spans(source, s) && s != []
    ensures s[0] !in s[1..]
  {
    forall k | 1 <= k < |s| ensures s[k] != s[0] {
      assert s[0].start < s[0].stop;
    }
  }

  /** Disjoint spans that are not empty are distinct. */
  lemma {:induction false} SingleIn(source: string, s: seq<Edit>, e: Edit)
    requires Spans(source, s)
    ensures multiset(s)[e] <= 1
  {
    if s != [] {
      SingleIn(source, s[1..], e);
      HeadIsAlone(source, s);
      assert s == [s[0]] + s[1..];
      assert e in s[1..] <==> multiset(s[1..])[e] > 0;
    }
  }

  // ---- the loop ------------------------------------------------------------------------------------------------

  /** The edits still to come lie left of the ones already applied. */
  lemma NextStretch(source: string, edits: seq<Edit>, ordered: seq<Edit>, i: int)
    requires Spans(source, ordered) && Descending(ordered) && multiset(edits) == multiset(ordered)
    requires 0 <= i <= |ordered|
    ensures var hi := if i == 0 then |source| else ordered[i - 1].start;
            var lo := if i == |ordered| then 0 else ordered[i].stop;
            lo <= hi <= |source| && forall e :: e in edits ==> !(lo <= e.start < hi)
  {
    var hi := if i == 0 then |source| else ordered[i - 1].start;
    var lo := if i == |ordered| then 0 else ordered[i].stop;
    forall e | e in edits ensures !(lo <= e.start < hi) {
      assert e in multiset(edits);
      assert e in ordered;
      var k :| 0 <= k < |ordered| && ordered[k] == e;
      if k < i { assert ordered[k].start >= ordered[i - 1].start; }
      if i < k { assert ordered[i].start >= ordered[k].start; }
    }
  }

  /** The edits applied from right to left with the offsets of the original text are the simultaneous
      substitution of all of them. */
  method ApplyEdits(source: string, edits: seq<Edit>) returns (text: string)
    requires Spans(source, edits)
    ensures text == Substituted(source, edits, 0)
  {
    hide Substituted, Spans, Descending;
    text := source;
    AtTheEnd(source, edits);
    var ordered := Sorted(edits);
    SortedIsOrdered(edits);
    MultisetKeepsSpans(source, edits, ordered);
    var i := 0;
    ghost var done := |source|;
    while i < |ordered|
      invariant 0 <= i <= |ordered|
      invariant done == if i == 0 then |source| else ordered[i - 1].start
      invariant i > 0 ==> ordered[i - 1].start <= |source|
      invariant text == source[..done] + Substituted(source, edits, done)
    {
      var e := ordered[i];
      ApplyOne(source, edits, ordered, i, text);
      text := text[..e.start] + e.text + text[e.stop..];
      done := e.start;
      i := i + 1;
    }
    NextStretch(source, edits, ordered, i);
    UntouchedStretch(source, edits, 0, done);
  }

  lemma ApplyOne(source: string, edits: seq<Edit>, ordered: seq<Edit>, i: int, text: string)
    requires Spans(source, ordered) && Descending(ordered) && multiset(edits) == multiset(ordered)
    requires 0 <= i < |ordered|
    requires var done := if i == 0 then |source| else ordered[i - 1].start;
             done <= |source| && text == source[..done] + Substituted(source, edits, done)
    ensures var e := ordered[i];
            e.start <= e.stop <= |text| && e.start <= |source| &&
            text[..e.start] + e.text + text[e.stop..] == source[..e.start] + Substituted(source, edits, e.start)
  {
    hide Substituted;
    var done := if i == 0 then |source| else ordered[i - 1].start;
    var e := ordered[i];
    NextStretch(source, edits, ordered, i);
    UntouchedStretch(source, edits, e.stop, done);
    assert text[..e.start] == source[..e.start];
    assert text[e.stop..] == source[e.stop..done] + Substituted(source, edits, done);
    OneEdit(source, edits, ordered, i);
    Associative(source[..e.start], e.text, text[e.stop..]);
  }

  lemma OneEdit(source: string, edits: seq<Edit>, ordered: seq<Edit>, i: int)
    requires Spans(source, ordered) && multiset(edits) == multiset(ordered) && 0 <= i < |ordered|
    ensures var e := ordered[i];
            Substituted(source, edits, e.start) == e.text + Substituted(source, edits, e.stop)
  {
    var e := ordered[i];
    SameEditAt(source, ordered, edits, e.start);
    assert EditAt(ordered, e.start).Some? && EditAt(ordered, e.start).value in ordered;
    var j :| 0 <= j < |ordered| && ordered[j] == EditAt(ordered, e.start).value;
  }

  // ---- what the result is made of ---------------------------------------------------------------------------------

  /** A statement with the text before it and, if it is edited, what it becomes. */
  datatype Piece = Piece(gap: string, statement: string, replacement: Option<string>)

  function Outcome(p: Piece): string { if p.replacement.Some? then p.replacement.value else p.statement }

  function EditOf(p: Piece, start: nat): seq<Edit> {
    if p.replacement.Some? then [Edit(start, start + |p.statement|, p.replacement.value)] else []
  }

  function Before(pieces: seq<Piece>): string {
    if pieces == [] then []
    else var p := pieces[|pieces| - 1]; Before(pieces[..|pieces| - 1]) + (p.gap + p.statement)
  }

  function After(pieces: seq<Piece>): string {
    if pieces == [] then []
    else var p := pieces[|pieces| - 1]; After(pieces[..|pieces| - 1]) + (p.gap + Outcome(p))
  }

  function EditsOf(pieces: seq<Piece>): seq<Edit> {
    if pieces == [] then []
    else
      var front, p := pieces[..|pieces| - 1], pieces[|pieces| - 1];
      EditsOf(front) + EditOf(p, |Before(front)| + |p.gap|)
  }

  ghost predicate Statements(pieces: seq<Piece>) { forall k :: 0 <= k < |pieces| ==> pieces[k].statement != [] }

  /** The edits of a parsed file are spans of its text. */
  lemma {:induction false} EditsAreSpans(pieces: seq<Piece>, tail: string)
    requires Statements(pieces)
    ensures Spans(Before(pieces) + tail, EditsOf(pieces))
  {
    hide Spans, EditOf;
    if pieces == [] {
      NoSpans(Before(pieces) + tail);
    } else {
      var front, p := pieces[..|pieces| - 1], pieces[|pieces| - 1];
      EditsAreSpans(front, []);
      assert Before(front) + [] == Before(front);
      SpansGrow(Before(front), EditsOf(front), p, tail);
      Associative(Before(front), p.gap + p.statement, tail);
    }
  }

  lemma NoSpans(source: string)
    ensures Spans(source, [])
  {
  }

  /** More text to the right, and edits that lie in it, change nothing to the left. */
  lemma {:induction false} LeftIsUnaffected(left: string, right: string, edits: seq<Edit>, more: seq<Edit>, pos: nat)
    requires pos <= |left| && Spans(left, edits)
    requires forall e :: e in more ==> |left| <= e.start
    ensures Substituted(left + right, edits + more, pos) ==
            Substituted(left, edits, pos) + Substituted(left + right, edits + more, |left|)
    decreases |left| - pos
  {
    hide EditAt;
    if pos < |left| {
      EditAtConcat(edits, more, pos);
      match EditAt(edits, pos)
      case Some(e) =>
        assert e.stop <= |left| && e.stop > pos;
        LeftIsUnaffected(left, right, edits, more, e.stop);
        Associative(e.text, Substituted(left, edits, e.stop), Substituted(left + right, edits + more, |left|));
      case None =>
        assert EditAt(edits + more, pos).None?;
        LeftIsUnaffected(left, right, edits, more, pos + 1);
        Associative([left[pos]], Substituted(left, edits, pos + 1), Substituted(left + right, edits + more, |left|));
    }
  }

  lemma Associative(a: string, b: string, c: string)
    ensures a + (b + c) == (a + b) + c
  {
  }

  lemma {:induction false} EditAtConcat(a: seq<Edit>, b: seq<Edit>, pos: nat)
    ensures EditAt(a + b, pos) == if EditAt(a, pos).Some? then EditAt(a, pos) else EditAt(b, pos)
  {
    if a == [] {
      assert a + b == b;
    } else {
      assert (a + b)[1..] == a[1..] + b;
      EditAtConcat(a[1..], b, pos);
    }
  }

  /** Every character outside the edited statements is kept in order, and every edited statement becomes
      its replacement. */
  lemma {:induction false} SpliceReplacesStatements(pieces: seq<Piece>, tail: string)
    requires Statements(pieces)
    ensures Substituted(Before(pieces) + tail, EditsOf(pieces), 0) == After(pieces) + tail
  {
    hide Substituted, EditAt, Spans, EditOf, Outcome;
    if pieces == [] {
      assert [] + tail == tail;
      UntouchedStretch(tail, [], 0, |tail|);
      AtTheEnd(tail, []);
    } else {
      var front, p := pieces[..|pieces| - 1], pieces[|pieces| - 1];
      SpliceReplacesStatements(front, []);
      EditsAreSpans(front, []);
      assert Before(front) + [] == Before(front) && After(front) + [] == After(front);
      LastPiece(Before(front), EditsOf(front), p, tail);
      Associative(Before(front), p.gap + p.statement, tail);
      Associative(After(front), p.gap + Outcome(p), tail);
    }
  }

  lemma LastPiece(left: string, edits: seq<Edit>, p: Piece, tail: string)
    requires Spans(left, edits) && p.statement != []
    ensures Substituted(left + (p.gap + p.statement + tail), edits + EditOf(p, |left| + |p.gap|), 0) ==
            Substituted(left, edits, 0) + (p.gap + Outcome(p) + tail)
  {
    hide Substituted, EditAt;
    var right := p.gap + p.statement + tail;
    var all, more := left + right, EditOf(p, |left| + |p.gap|);
    LeftIsUnaffected(left, right, edits, more, 0);
    FromGap(left, edits, p, tail);
  }

  lemma FromGap(left: string, edits: seq<Edit>, p: Piece, tail: string)
    requires Spans(left, edits) && p.statement != []
    ensures var all, more := left + (p.gap + p.statement + tail), EditOf(p, |left| + |p.gap|);
            Substituted(all, edits + more, |left|) == p.gap + Outcome(p) + tail
  {
    hide Substituted, EditAt, Spans;
    var start := |left| + |p.gap|;
    Slices(left, p.gap, p.statement, tail);
    SpansGrow(left, edits, p, tail);
    OneStatement(left + (p.gap + p.statement + tail), edits, p, |left|, start);
  }

  /** A text whose edits are done but for one statement after a gap. */
  lemma OneStatement(all: string, edits: seq<Edit>, p: Piece, lo: nat, start: nat)
    requires lo <= start <= start + |p.statement| <= |all| && p.statement != []
    requires forall e :: e in edits ==> e.start < lo
    requires Spans(all, edits + EditOf(p, start)) && all[start..start + |p.statement|] == p.statement
    ensures Substituted(all, edits + EditOf(p, start), lo) == all[lo..start] + Outcome(p) + all[start + |p.statement|..]
  {
    hide Substituted, EditAt, Spans;
    var every := edits + EditOf(p, start);
    var stop := start + |p.statement|;
    UntouchedStretch(all, every, lo, start);
    UntouchedStretch(all, every, stop, |all|);
    AtTheEnd(all, every);
    if p.replacement.Some? {
      OneEdit(all, every, every, |edits|);
    } else {
      UntouchedStretch(all, every, start, stop);
    }
    Associative(all[lo..start], Outcome(p), all[stop..]);
  }

  lemma SpansGrow(left: string, edits: seq<Edit>, p: Piece, tail: string)
    requires Spans(left, edits) && p.statement != []
    ensures Spans(left + (p.gap + p.statement + tail), edits + EditOf(p, |left| + |p.gap|))
    ensures forall e :: e in edits ==> e.start < |left|
  {
  }

  lemma Slices(left: string, gap: string, statement: string, tail: string)
    ensures var all, start := left + (gap + statement + tail), |left| + |gap|;
            var stop := start + |statement|;
            all[|left|..start] == gap && all[start..stop] == statement && all[stop..] == tail && |all| == stop + |tail|
  {
  }

  lemma AtTheEnd(source: string, edits: seq<Edit>)
    ensures Substituted(source, edits, |source|) == []
  {
  }
}
