/** The requirement merger of scripts/vendor_fastmcp.py: the vendored packages' requirements become one
    list in which a name keeps only its highest numeric floor. */
module Requirements {
  import opened Wrappers
  import opened Text

  // ---- versions -----------------------------------------------------------------------------------------

  /** _version_key: a dotted numeric version as a tuple of numbers. */
  function VersionKey(version: string): (key: Option<seq<nat>>)
    ensures key.Some? ==> key.value != []
    decreases |version|
  {
    var cut := RPartition(version, '.');
    if cut.tail == "" || !AllDigits(cut.tail) then None
    else if !cut.found then Some([DecimalValue(cut.tail)])
    else
      var front := VersionKey(cut.head);
      if front.None? then None else Some(front.value + [DecimalValue(cut.tail)])
  }

  /** Digits with single dots between them, neither first nor last. */
  predicate IsDotted(text: string) {
    && text != "" && text[0] != '.' && text[|text| - 1] != '.'
    && (forall k :: 0 <= k < |text| ==> '0' <= text[k] <= '9' || text[k] == '.')
    && (forall k :: 0 < k < |text| && text[k - 1] == '.' ==> text[k] != '.')
  }

  /** The versions that are read at all. */
  lemma {:induction false} VersionKeyReads(text: string)
    ensures VersionKey(text).Some? <==> IsDotted(text)
    decreases |text|
  {
    hide IsDotted, AllDigits, RPartition;
    var cut := RPartition(text, '.');
    LastDot(text);
    DottedPart(cut.tail);
    if cut.found {
      VersionKeyReads(cut.head);
      DottedConcat(cut.head, cut.tail);
    }
  }

  lemma LastDot(text: string)
    ensures var cut := RPartition(text, '.');
            '.' !in cut.tail && (cut.found ==> |cut.head| < |text| && text == cut.head + ['.'] + cut.tail)
            && (!cut.found ==> cut.tail == text)
  {
  }

  lemma {:induction false} AllDigitsByCharacter(s: string)
    ensures AllDigits(s) <==> forall k :: 0 <= k < |s| ==> '0' <= s[k] <= '9'
  {
    if s != "" {
      AllDigitsByCharacter(s[..|s| - 1]);
      assert forall k :: 0 <= k < |s| - 1 ==> s[..|s| - 1][k] == s[k];
    }
  }

  lemma DottedPart(part: string)
    requires '.' !in part
    ensures IsDotted(part) <==> part != "" && AllDigits(part)
  {
    AllDigitsByCharacter(part);
  }

  lemma DottedConcat(front: string, part: string)
    requires '.' !in part
    ensures IsDotted(front + ['.'] + part) <==> IsDotted(front) && IsDotted(part)
  {
    var text, n := front + ['.'] + part, |front|;
    assert text[n] == '.' && forall k :: 0 <= k < n ==> text[k] == front[k];
    assert forall k :: 0 <= k < |part| ==> part[k] == text[n + 1 + k];
    assert forall k :: n < k < |text| ==> text[k] == part[k - n - 1];
    if IsDotted(text) {
      assert n > 0 ==> front[n - 1] == text[n - 1] && front[0] == text[0];
      assert part != "" ==> part[|part| - 1] == text[|text| - 1] && part[0] == text[n + 1];
      forall k | 0 < k < n && front[k - 1] == '.' ensures front[k] != '.' { assert text[k - 1] == '.'; }
    } else if IsDotted(front) && IsDotted(part) {
      assert text[0] == front[0] && text[|text| - 1] == part[|part| - 1];
      forall k | 0 < k < |text| && text[k - 1] == '.' ensures text[k] != '.' {
        if k < n { assert front[k - 1] == '.'; }
      }
    }
  }

  function VersionText(key: seq<nat>): string
    requires key != []
  {
    if |key| == 1 then Decimal(key[0]) else VersionText(key[..|key| - 1]) + "." + Decimal(key[|key| - 1])
  }

  lemma {:induction false} VersionRoundTrip(key: seq<nat>)
    requires key != []
    ensures VersionKey(VersionText(key)) == Some(key)
  {
    var last := Decimal(key[|key| - 1]);
    DecimalRoundTrip(key[|key| - 1]);
    if '.' in last { DigitsOnly(last, '.'); }
    if |key| == 1 {
      RPartitionSplits("", '.', last);
      assert key == [key[0]];
    } else {
      var front := VersionText(key[..|key| - 1]);
      VersionRoundTrip(key[..|key| - 1]);
      RPartitionSplits(front, '.', last);
      assert front + "." + last == front + ['.'] + last;
      assert key == key[..|key| - 1] + [key[|key| - 1]];
    }
  }

  /** Python's order on tuples: a proper prefix is smaller. */
  predicate TupleLeq(a: seq<nat>, b: seq<nat>) {
    a == [] || (b != [] && (a[0] < b[0] || (a[0] == b[0] && TupleLeq(a[1..], b[1..]))))
  }

  lemma {:induction false} TupleLeqTotal(a: seq<nat>, b: seq<nat>)
    ensures TupleLeq(a, b) || TupleLeq(b, a)
  {
    if a != [] && b != [] { TupleLeqTotal(a[1..], b[1..]); }
  }

  lemma {:induction false} TupleLeqTransitive(a: seq<nat>, b: seq<nat>, c: seq<nat>)
    requires TupleLeq(a, b) && TupleLeq(b, c)
    ensures TupleLeq(a, c)
  {
    if a != [] && a[0] == b[0] == c[0] { TupleLeqTransitive(a[1..], b[1..], c[1..]); }
  }

  function Head(a: seq<nat>): nat { if a == [] then 0 else a[0] }
  function Tail(a: seq<nat>): seq<nat> { if a == [] then [] else a[1..] }

  /** PEP 440 compares release segments after padding the shorter one with zeros: -1, 0 or 1. */
  function Compare(a: seq<nat>, b: seq<nat>): int
    decreases |a| + |b|
  {
    if a == [] && b == [] then 0
    else if Head(a) < Head(b) then -1
    else if Head(a) > Head(b) then 1
    else Compare(Tail(a), Tail(b))
  }

  /** The k-th number, with zeros behind the last. */
  function Padded(a: seq<nat>, k: nat): nat { if k < |a| then a[k] else 0 }

  ghost predicate Before(a: seq<nat>, b: seq<nat>, k: nat) {
    Padded(a, k) < Padded(b, k) && forall j: nat | j < k :: Padded(a, j) == Padded(b, j)
  }

  lemma TailPadded(a: seq<nat>, k: nat)
    ensures Padded(a, k) == if k == 0 then Head(a) else Padded(Tail(a), k - 1)
  {
  }

  lemma BeforeShifts(a: seq<nat>, b: seq<nat>, k: nat)
    ensures Before(a, b, 0) <==> Head(a) < Head(b)
    ensures Before(a, b, k + 1) <==> Head(a) == Head(b) && Before(Tail(a), Tail(b), k)
  {
    hide Padded, Head, Tail;
    TailPadded(a, 0);
    TailPadded(b, 0);
    TailPadded(a, k + 1);
    TailPadded(b, k + 1);
    if Before(a, b, k + 1) {
      forall j: nat | j < k ensures Padded(Tail(a), j) == Padded(Tail(b), j) {
        TailPadded(a, j + 1);
        TailPadded(b, j + 1);
      }
    } else if Head(a) == Head(b) && Before(Tail(a), Tail(b), k) {
      forall j: nat | j < k + 1 ensures Padded(a, j) == Padded(b, j) {
        TailPadded(a, j);
        TailPadded(b, j);
      }
    }
  }

  lemma Shifted(a: seq<nat>, b: seq<nat>)
    ensures (exists k: nat :: Before(a, b, k)) <==>
              Head(a) < Head(b) || (Head(a) == Head(b) && exists k: nat :: Before(Tail(a), Tail(b), k))
  {
    hide Before, Padded, Head, Tail;
    if k: nat :| Before(a, b, k) {
      BeforeShifts(a, b, if k == 0 then 0 else k - 1);
    }
    if k: nat :| Before(Tail(a), Tail(b), k) {
      BeforeShifts(a, b, k);
    }
    BeforeShifts(a, b, 0);
  }

  /** The comparison tells whether the padded numbers agree, and if not which is smaller at the first place where
      they differ. */
  lemma {:induction false} ComparesPadded(a: seq<nat>, b: seq<nat>)
    ensures -1 <= Compare(a, b) <= 1
    ensures Compare(a, b) == -1 <==> exists k: nat :: Before(a, b, k)
    ensures Compare(a, b) == 1 <==> exists k: nat :: Before(b, a, k)
    decreases |a| + |b|
  {
    if a != [] || b != [] {
      ComparesPadded(Tail(a), Tail(b));
      Shifted(a, b);
      Shifted(b, a);
    }
  }

  /** A greater tuple is never a smaller release. */
  lemma {:induction false} TupleOrderIsPaddedOrder(a: seq<nat>, b: seq<nat>)
    requires TupleLeq(a, b)
    ensures Compare(b, a) >= 0
    decreases |a| + |b|
  {
    if a == [] {
      if b != [] { TupleOrderIsPaddedOrder([], b[1..]); }
    } else if a[0] == b[0] {
      TupleOrderIsPaddedOrder(a[1..], b[1..]);
    }
  }

  lemma {:induction false} CompareTransitive(a: seq<nat>, b: seq<nat>, c: seq<nat>)
    requires Compare(a, b) >= 0 && Compare(b, c) >= 0
    ensures Compare(a, c) >= 0
    ensures Compare(a, b) > 0 || Compare(b, c) > 0 ==> Compare(a, c) > 0
    decreases |a| + |b| + |c|
  {
    if a == [] && c == [] {
      if b != [] {
        CompareTransitive(Tail(a), Tail(b), Tail(c));
      }
    } else if Head(a) == Head(b) == Head(c) {
      CompareTransitive(Tail(a), Tail(b), Tail(c));
    }
  }

  /** A candidate version: its epoch, its release, and where its suffix puts it relative to the plain
      release (below zero for development and pre-releases, above for post-releases). */
  datatype Version = Version(epoch: nat, release: seq<nat>, phase: int)

  /** PEP 440, "Inclusive ordered comparison", for a floor that is a plain release. */
  predicate AtLeast(v: Version, floor: seq<nat>) {
    v.epoch > 0 || Compare(v.release, floor) > 0 || (Compare(v.release, floor) == 0 && v.phase >= 0)
  }

  // ---- clauses ---------------------------------------------------------------------------------------------

  /** The number behind `>=`, when it is numeric. */
  function Floor(clause: string): Option<seq<nat>> {
    if StartsWith(clause, ">=") then VersionKey(clause[2..]) else None
  }

  /** What the other clauses allow is whatever PEP 440 says of them. */
  datatype Pep440 = Pep440(other: (string, Version) -> bool) {
    predicate Satisfies(v: Version, clause: string) {
      match Floor(clause)
      case Some(floor) => AtLeast(v, floor)
      case None => other(clause, v)
    }

    predicate SatisfiesAll(v: Version, clauses: set<string>) { forall c :: c in clauses ==> Satisfies(v, c) }
  }

  /** A clause is a floor when a dotted number follows its `>=`; the floor of a printed version is the version, and
      it lets through exactly the versions that are nowhere below it, its own pre-releases left out. */
  lemma FloorMeaning(p: Pep440, v: Version, floor: seq<nat>, clause: string)
    requires floor != []
    ensures Floor(clause).Some? <==> |clause| > 2 && clause[0] == '>' && clause[1] == '=' && IsDotted(clause[2..])
    ensures Floor(">=" + VersionText(floor)) == Some(floor)
    ensures p.Satisfies(v, ">=" + VersionText(floor)) <==>
              || v.epoch > 0
              || (exists k: nat :: Before(floor, v.release, k))
              || (v.phase >= 0 && !exists k: nat :: Before(v.release, floor, k))
  {
    hide VersionKey, VersionText, IsDotted, Before, Compare;
    NotDotted();
    if |clause| >= 2 {
      VersionKeyReads(clause[2..]);
      assert clause == clause[..2] + clause[2..] && (|clause| == 2 ==> clause[2..] == "");
      assert StartsWith(clause, ">=") <==> clause[0] == '>' && clause[1] == '=';
    }
    VersionRoundTrip(floor);
    assert (">=" + VersionText(floor))[2..] == VersionText(floor);
    ComparesPadded(v.release, floor);
  }

  lemma NotDotted()
    ensures !IsDotted("")
  {
  }

  function Numeric(clauses: set<string>): set<string> { set c | c in clauses && Floor(c).Some? }

  predicate Highest(h: string, clauses: set<string>) {
    h in Numeric(clauses) && forall c :: c in Numeric(clauses) ==> TupleLeq(Floor(c).value, Floor(h).value)
  }

  /** What may be kept of a set of clauses: which of several equal floors stays is left open. */
  ghost predicate IsMerge(clauses: set<string>, kept: set<string>) {
    if |Numeric(clauses)| <= 1 then kept == clauses
    else exists h :: Highest(h, clauses) && kept == (clauses - Numeric(clauses)) + {h}
  }

  /** A version satisfies what is kept exactly when it satisfies every clause. */
  lemma MergeKeepsMeaning(p: Pep440, clauses: set<string>, kept: set<string>, v: Version)
    requires IsMerge(clauses, kept)
    ensures p.SatisfiesAll(v, kept) <==> p.SatisfiesAll(v, clauses)
  {
    hide VersionKey, Compare, TupleLeq;
    if |Numeric(clauses)| > 1 {
      var h :| Highest(h, clauses) && kept == (clauses - Numeric(clauses)) + {h};
      if p.SatisfiesAll(v, kept) {
        forall c | c in clauses ensures p.Satisfies(v, c) {
          if c in Numeric(clauses) {
            assert p.Satisfies(v, h);
            FloorsBelow(v, Floor(c).value, Floor(h).value);
          } else {
            assert c in kept;
          }
        }
      }
    }
  }

  lemma FloorsBelow(v: Version, low: seq<nat>, high: seq<nat>)
    requires AtLeast(v, high) && TupleLeq(low, high)
    ensures AtLeast(v, low)
  {
    TupleOrderIsPaddedOrder(low, high);
    if v.epoch == 0 { CompareTransitive(v.release, high, low); }
  }

  /** _merge_clauses. */
  method MergeClauses(clauses: set<string>) returns (kept: set<string>)
    ensures IsMerge(clauses, kept)
  {
    var numeric := Numeric(clauses);
    if |numeric| <= 1 { return clauses; }
    assert numeric != {};
    var highest :| highest in numeric;
    var rest := numeric - {highest};
    TupleLeqTotal(Floor(highest).value, Floor(highest).value);
    while rest != {}
      invariant rest <= numeric && highest in numeric
      invariant forall c :: c in numeric && c !in rest ==> TupleLeq(Floor(c).value, Floor(highest).value)
      decreases |rest|
    {
      var c :| c in rest;
      TupleLeqTotal(Floor(c).value, Floor(highest).value);
      if !TupleLeq(Floor(c).value, Floor(highest).value) {
        forall d | d in numeric && d !in rest ensures TupleLeq(Floor(d).value, Floor(c).value) {
          TupleLeqTransitive(Floor(d).value, Floor(highest).value, Floor(c).value);
        }
        highest := c;
      }
      TupleLeqTotal(Floor(c).value, Floor(c).value);
      rest := rest - {c};
    }
    kept := (clauses - numeric) + {highest};
    assert Highest(highest, clauses);
  }

  // ---- the manifest -------------------------------------------------------------------------------------------

  const NOT_DECLARED := {
    "fastmcp", "fastmcp-slim", "mcp", "mcp-types", "websockets", "certifi", "httpx2", "packaging", "pyjwt", "pyyaml",
    "typing-extensions"
  }

  predicate IsSeparator(c: char) { c == '-' || c == '_' || c == '.' }

  /** Runs of separators become one dash, letters lower case. */
  function Canonical(name: string): string {
    if name == "" then ""
    else
      var front, c := Canonical(name[..|name| - 1]), name[|name| - 1];
      if !IsSeparator(c) then front + [LowerChar(c)]
      else if |name| > 1 && IsSeparator(name[|name| - 2]) then front
      else front + "-"
  }

  predicate EndsInSeparator(s: string) { s != "" && s[|s| - 1] in {'-', '_', '.'} }

  /** Lower case, single dashes and no other separator. */
  predicate IsCanonical(s: string) {
    s == "" ||
    var front, c := s[..|s| - 1], s[|s| - 1];
    IsCanonical(front) && !('A' <= c <= 'Z') && c !in {'_', '.'} && (c == '-' ==> !EndsInSeparator(front))
  }

  /** Names are merged under a canonical spelling, and canonical spellings are their own. */
  lemma {:induction false} CanonicalIsCanonical(name: string)
    ensures IsCanonical(Canonical(name))
    ensures EndsInSeparator(Canonical(name)) <==> EndsInSeparator(name)
    ensures IsCanonical(name) ==> Canonical(name) == name
  {
    if name != "" {
      var front, c := name[..|name| - 1], name[|name| - 1];
      CanonicalIsCanonical(front);
      var out := Canonical(name);
      if out != Canonical(front) {
        assert out[..|out| - 1] == Canonical(front);
      }
      assert name == front + [c];
    }
  }

  /** Spellings that differ in letter case only are merged. */
  lemma {:induction false} CaseIsIgnored(name: string)
    ensures Canonical(Lower(name)) == Canonical(name)
  {
    hide LowerChar;
    if name != "" {
      var front := name[..|name| - 1];
      CaseIsIgnored(front);
      assert Lower(name)[..|name| - 1] == Lower(front);
      LowerOnce(name[|name| - 1]);
      if |name| > 1 { LowerOnce(name[|name| - 2]); }
    }
  }

  lemma LowerOnce(c: char)
    ensures LowerChar(LowerChar(c)) == LowerChar(c) && IsSeparator(LowerChar(c)) == IsSeparator(c)
  {
  }

  /** A line of REQUIRES.txt: its marker, extras and comma-separated clauses, or text the pattern refuses. */
  datatype Line = Unparsed | Requirement(name: string, extras: set<string>, clauses: set<string>, marker: string)

  /** How a marker evaluates for the deployment target; None for one that is not supported. */
  type Markers = string -> Option<bool>

  predicate Refused(markers: Markers, line: Line) {
    line.Unparsed? || (line.marker != "" && markers(line.marker).None?)
  }

  /** Whether a line counts towards the manifest's entry for a name. */
  predicate CountsFor(markers: Markers, line: Line, name: string): (counts: bool)
    ensures counts ==> line.Requirement?
  {
    && line.Requirement? && (line.marker == "" || markers(line.marker) == Some(true))
    && Canonical(line.name) == name && name !in NOT_DECLARED
  }

  datatype Entry = Entry(extras: set<string>, clauses: set<string>)

  /** What the lines say about a name, before merging. */
  function Gathered(markers: Markers, lines: seq<Line>, name: string): Option<Entry> {
    if lines == [] then None
    else
      var before, line := Gathered(markers, lines[..|lines| - 1], name), lines[|lines| - 1];
      if !CountsFor(markers, line, name) then before
      else if before.None? then Some(Entry(line.extras, line.clauses))
      else Some(Entry(before.value.extras + line.extras, before.value.clauses + line.clauses))
  }

  lemma {:induction false} GatheredIsUnion(markers: Markers, lines: seq<Line>, name: string, text: string)
    ensures Gathered(markers, lines, name).Some? <==> exists k :: 0 <= k < |lines| && CountsFor(markers, lines[k], name)
    ensures Gathered(markers, lines, name).Some? ==>
              var e := Gathered(markers, lines, name).value;
              && (text in e.clauses <==> exists k ::
                  0 <= k < |lines| && CountsFor(markers, lines[k], name)
                  && text in lines[k].clauses)
              && (text in e.extras <==> exists k ::
                  0 <= k < |lines| && CountsFor(markers, lines[k], name)
                  && text in lines[k].extras)
  {
    hide CountsFor;
    if lines != [] {
      GatheredIsUnion(markers, lines[..|lines| - 1], name, text);
      assert forall k :: 0 <= k < |lines| - 1 ==> lines[..|lines| - 1][k] == lines[k];
    }
  }

  /** The dictionary the loop fills agrees with what the lines say. */
  ghost predicate Collected(markers: Markers, lines: seq<Line>, merged: map<string, Entry>) {
    forall name :: Gathered(markers, lines, name) == if name in merged then Some(merged[name]) else None
  }

  lemma OneMoreLine(markers: Markers, lines: seq<Line>, i: int, merged: map<string, Entry>, after: map<string, Entry>)
    requires 0 <= i < |lines| && Collected(markers, lines[..i], merged)
    requires lines[i].Requirement?
    requires forall name :: !CountsFor(markers, lines[i], name) ==> (name in after <==> name in merged)
    requires forall name :: !CountsFor(markers, lines[i], name) && name in merged ==> after[name] == merged[name]
    requires forall name :: CountsFor(markers, lines[i], name) ==>
               name in after && after[name] == if name in merged
                   then Entry(merged[name].extras + lines[i].extras, merged[name].clauses + lines[i].clauses)
                                                else Entry(lines[i].extras, lines[i].clauses)
    ensures Collected(markers, lines[..i + 1], after)
  {
    assert lines[..i + 1][..i] == lines[..i];
  }

  /** The loop over all lines: a dictionary of what they say, or None at the first refused one. */
  method Gather(markers: Markers, lines: seq<Line>) returns (merged: Option<map<string, Entry>>)
    ensures merged.None? <==> exists k :: 0 <= k < |lines| && Refused(markers, lines[k])
    ensures merged.Some? ==> Collected(markers, lines, merged.value)
  {
    hide Canonical, CountsFor;
    var all: map<string, Entry> := map[];
    for i := 0 to |lines|
      invariant forall k :: 0 <= k < i ==> !Refused(markers, lines[k])
      invariant Collected(markers, lines[..i], all)
    {
      if Refused(markers, lines[i]) { return None; }
      var line, before := lines[i], all;
      var name := Canonical(line.name);
      Names(markers, line);
      if (line.marker == "" || markers(line.marker).value) && name !in NOT_DECLARED {
        var e := if name in all then all[name] else Entry({}, {});
        all := all[name := Entry(e.extras + line.extras, e.clauses + line.clauses)];
      }
      OneMoreLine(markers, lines, i, before, all);
    }
    assert lines[..|lines|] == lines;
    merged := Some(all);
  }

  /** The loop over the names: each entry keeps its extras and a merge of its clauses. */
  method MergeAll(merged: map<string, Entry>) returns (result: map<string, Entry>)
    ensures forall name :: IsEntry(if name in merged then Some(merged[name]) else None, result, name)
  {
    result := map[];
    var rest := merged.Keys;
    while rest != {}
      invariant rest <= merged.Keys
      invariant forall name :: name !in rest ==> IsEntry(if name in merged then Some(merged[name]) else None, result,
                name)
      decreases |rest|
    {
      var name :| name in rest;
      var kept := MergeClauses(merged[name].clauses);
      result := result[name := Entry(merged[name].extras, kept)];
      rest := rest - {name};
    }
  }

  /** The requirements of all vendored packages, or None where the script exits: a line is refused. */
  method ManifestRequirements(markers: Markers, lines: seq<Line>) returns (requirements: Option<map<string, Entry>>)
    ensures requirements.None? <==>
              exists line :: line in lines && (line == Unparsed || (line.marker != "" && markers(line.marker) == None))
    ensures requirements.Some? ==> forall name :: IsEntry(Gathered(markers, lines, name), requirements.value, name)
  {
    hide Gathered, IsEntry;
    var merged := Gather(markers, lines);
    if merged.None? {
      var k :| 0 <= k < |lines| && Refused(markers, lines[k]);
      assert lines[k] in lines;
      return None;
    }
    var result := MergeAll(merged.value);
    requirements := Some(result);
  }

  lemma Names(markers: Markers, line: Line)
    requires line.Requirement?
    ensures forall name :: CountsFor(markers, line, name) <==>
              (line.marker == "" || markers(line.marker) == Some(true)) && Canonical(line.name) == name
                  && name !in NOT_DECLARED
  {
  }

  ghost predicate IsEntry(gathered: Option<Entry>, result: map<string, Entry>, name: string) {
    match gathered
    case None => name !in result
    case Some(e) => name in result && result[name].extras == e.extras && IsMerge(e.clauses, result[name].clauses)
  }

  /** A name is declared exactly when some line counts for it, with every extra those lines ask for; and a
      version is allowed by its entry exactly when every one of those lines allows it. */
  lemma ManifestKeepsMeaning(p: Pep440, markers: Markers, lines: seq<Line>, result: map<string, Entry>, name: string,
          v: Version)
    requires IsEntry(Gathered(markers, lines, name), result, name)
    ensures name in result <==> exists k :: 0 <= k < |lines| && CountsFor(markers, lines[k], name)
    ensures name in result ==>
              (p.SatisfiesAll(v, result[name].clauses) <==>
               forall k :: 0 <= k < |lines| && CountsFor(markers, lines[k], name) ==>
                   p.SatisfiesAll(v, lines[k].clauses))
    ensures name in result ==> forall x :: x in result[name].extras <==>
              exists k :: 0 <= k < |lines| && CountsFor(markers, lines[k], name) && x in lines[k].extras
  {
    hide CountsFor, Gathered, IsMerge, Pep440.Satisfies;
    forall t ensures GatheredHas(markers, lines, name, t) { GatheredIsUnion(markers, lines, name, t); }
    assert GatheredHas(markers, lines, name, "");
    if Gathered(markers, lines, name).Some? {
      var e := Gathered(markers, lines, name).value;
      MergeKeepsMeaning(p, e.clauses, result[name].clauses, v);
      if p.SatisfiesAll(v, e.clauses) {
        forall k, c | 0 <= k < |lines| && CountsFor(markers, lines[k], name) && c in lines[k].clauses
          ensures p.Satisfies(v, c)
        {
          assert GatheredHas(markers, lines, name, c);
        }
      } else {
        var c :| c in e.clauses && !p.Satisfies(v, c);
        assert GatheredHas(markers, lines, name, c);
      }
      forall x ensures x in result[name].extras <==>
              exists k :: 0 <= k < |lines| && CountsFor(markers, lines[k], name) && x in lines[k].extras
      {
        assert GatheredHas(markers, lines, name, x);
      }
    }
  }

  ghost predicate GatheredHas(markers: Markers, lines: seq<Line>, name: string, text: string) {
    && (Gathered(markers, lines, name).Some? <==> exists k :: 0 <= k < |lines| && CountsFor(markers, lines[k], name))
    && (Gathered(markers, lines, name).Some? ==>
          var e := Gathered(markers, lines, name).value;
          && (text in e.clauses <==> exists k ::
              0 <= k < |lines| && CountsFor(markers, lines[k], name)
              && text in lines[k].clauses)
          && (text in e.extras <==> exists k ::
              0 <= k < |lines| && CountsFor(markers, lines[k], name)
              && text in lines[k].extras))
  }
}
