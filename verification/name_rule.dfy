/**
 * NameRule::find_matches (lib/name_rule.cpp): every word, from the first
 * upper-case letter of a chunk to the next '.', space, newline or NUL (or
 * the end of the content), is reported when its upper-cased form is a known
 * first name or last name. The two name lists are sets of strings.
 */
module NameRule {
  import opened Optional
  import opened Rules
  import opened Words

  /** The two name lists, each holding upper-case names. */
  datatype Names = Names(first: set<string>, last: set<string>)

  /** contains: upper-case the target and look it up among the first names, then the last names. */
  predicate Known(names: Names, target: string)
  {
    Upper(target) in names.first || Upper(target) in names.last
  }

  /** The loop's registers: whether a word is open and where it began. */
  datatype Scan = Scan(inWord: bool, begin: nat)

  datatype Outcome = Outcome(next: Scan, emitted: Option<MatchResult>)

  const Start: Scan := Scan(false, 0)

  /** The match for content[b..e], reported with start b and the delimiter's index e as end. */
  function Word(content: string, b: nat, e: nat): MatchResult
    requires b <= e <= |content|
  {
    NewMatch(content[b..e], b, e)
  }

  /**
   * One iteration at index i: an upper-case letter outside a word opens one;
   * a delimiter inside a word closes it, reporting it when the name is known.
   */
  function Step(names: Names, content: string, i: nat, s: Scan): (o: Outcome)
    requires i < |content| && (s.inWord ==> s.begin <= i)
    ensures o.next.inWord ==> o.next.begin <= i
    ensures o.emitted.Some? ==> var m := o.emitted.value;
      IsEnd(NameEnds, content[i]) && m.end == i && Known(names, m.text) && !o.next.inWord
  {
    var c := content[i];
    var t := if IsUpper(c) && !s.inWord then Scan(true, i) else s;
    if t.inWord && IsEnd(NameEnds, c) then
      Outcome(t.(inWord := false), if Known(names, content[t.begin..i]) then Some(Word(content, t.begin, i)) else None)
    else Outcome(t, None)
  }

  /** After the loop: a word still open runs to the end of the content and is checked too. */
  function Tail(names: Names, content: string, s: Scan): (r: seq<MatchResult>)
    requires s.inWord ==> s.begin <= |content|
    ensures |r| <= 1
    ensures forall m :: m in r ==> m.end == |content| && Known(names, m.text)
  {
    if s.inWord && Known(names, content[s.begin..|content|]) then [Word(content, s.begin, |content|)] else []
  }

  /** The loop from index i on, followed by the trailing word. */
  function Run(names: Names, content: string, i: nat, s: Scan): (r: seq<MatchResult>)
    requires i <= |content| && (s.inWord ==> s.begin <= i)
    ensures |r| <= |content| - i + 1
    ensures forall m :: m in r ==>
      && i <= m.end <= |content| && Known(names, m.text)
      && (m.end == |content| || IsEnd(NameEnds, content[m.end]))
    decreases |content| - i
  {
    if i == |content| then Tail(names, content, s)
    else
      var o := Step(names, content, i, s);
      (if o.emitted.Some? then [o.emitted.value] else []) + Run(names, content, i + 1, o.next)
  }

  function FindMatches(names: Names, content: string): (r: seq<MatchResult>)
    ensures |r| <= |content| + 1
    ensures forall m :: m in r ==>
      && m.end <= |content| && Known(names, m.text)
      && (m.end == |content| || IsEnd(NameEnds, content[m.end]))
  {
    Run(names, content, 0, Start)
  }

  /** A known name: the word of a chunk, reported with its delimiter's index (or the content's size) as end. */
  ghost predicate Candidate(names: Names, content: string, m: MatchResult)
  {
    && WordAt(NameEnds, content, m.start, m.end)
    && m == Word(content, m.start, m.end)
    && Known(names, m.text)
  }

  /** The loop invariant, as Words.Between describes it. */
  ghost predicate Scanning(content: string, i: nat, s: Scan)
  {
    i <= |content| && Between(NameEnds, content, i, s.inWord, s.begin)
  }

  /** The earliest start a match reported from here on can have. */
  function Lower(i: nat, s: Scan): nat
  {
    if s.inWord then s.begin else i
  }

  /** One iteration keeps the invariant; a word open after it began where the earliest report could. */
  lemma StepScans(names: Names, content: string, i: nat, s: Scan)
    requires Scanning(content, i, s) && i < |content|
    ensures var o := Step(names, content, i, s);
      && Scanning(content, i + 1, o.next)
      && (o.next.inWord ==> o.next.begin == Lower(i, s))
  {
    var c := content[i];
    if IsEnd(NameEnds, c) {
      ClosedAfterEnd(NameEnds, content, i);
    } else if s.inWord {
      OpenExtends(NameEnds, content, i, s.begin);
    } else if IsUpper(c) {
      Opens(NameEnds, content, i);
    } else {
      ClosedExtends(NameEnds, content, i);
    }
  }

  /** One iteration reports a match exactly when a known name ends at i, and then closes the word. */
  lemma StepEmits(names: Names, content: string, i: nat, s: Scan)
    requires Scanning(content, i, s) && i < |content|
    ensures var o := Step(names, content, i, s);
      && (o.emitted.Some? ==>
            && Candidate(names, content, o.emitted.value)
            && o.emitted.value.end == i
            && o.emitted.value.start == Lower(i, s)
            && !o.next.inWord)
      && (forall m :: Candidate(names, content, m) && m.end == i ==> o.emitted == Some(m))
  {
    var o := Step(names, content, i, s);
    if s.inWord && IsEnd(NameEnds, content[i]) {
      OpenCloses(NameEnds, content, i, s.begin);
    }
    forall m | Candidate(names, content, m) && m.end == i
      ensures o.emitted == Some(m)
    {
      OpenWord(NameEnds, content, i, s.inWord, s.begin, m.start, m.end);
    }
  }

  /** The trailing word is reported exactly when a known name runs to the end of the content. */
  lemma TailExact(names: Names, content: string, s: Scan)
    requires Scanning(content, |content|, s)
    ensures var r := Tail(names, content, s);
      && (forall m :: m in r <==> Candidate(names, content, m) && m.end >= |content|)
      && (forall m :: m in r ==> m.start >= Lower(|content|, s))
  {
    var n := |content|;
    if s.inWord {
      OpenCloses(NameEnds, content, n, s.begin);
      assert content[s.begin..] == content[s.begin..n];
    }
    forall m | Candidate(names, content, m) && m.end >= n
      ensures m in Tail(names, content, s)
    {
      OpenWord(NameEnds, content, n, s.inWord, s.begin, m.start, m.end);
      assert content[s.begin..] == content[s.begin..n];
    }
  }

  /** What RunExact states about the reports from index i on. */
  ghost predicate ReportsFrom(names: Names, content: string, i: nat, s: Scan, r: seq<MatchResult>)
  {
    && (forall m :: m in r <==> Candidate(names, content, m) && m.end >= i)
    && (forall m :: m in r ==> m.start >= Lower(i, s))
    && Ordered(r)
  }

  /** One iteration in front of reports that meet ReportsFrom gives reports that meet it from one index earlier. */
  lemma StepReports(names: Names, content: string, i: nat, s: Scan)
    requires Scanning(content, i, s) && i < |content|
    requires var o := Step(names, content, i, s);
      ReportsFrom(names, content, i + 1, o.next, Run(names, content, i + 1, o.next))
    ensures ReportsFrom(names, content, i, s, Run(names, content, i, s))
  {
    var o := Step(names, content, i, s);
    StepScans(names, content, i, s);
    StepEmits(names, content, i, s);
    var rest := Run(names, content, i + 1, o.next);
    var r := Run(names, content, i, s);
    if o.emitted.Some? {
      var e := o.emitted.value;
      OrderedCons(e, rest, i + 1);
      assert r == [e] + rest;
    } else {
      assert r == rest;
    }
  }

  /**
   * From a state meeting the invariant, the rule reports exactly the known
   * names that end at or after i, left to right.
   */
  lemma {:induction false} RunExact(names: Names, content: string, i: nat, s: Scan)
    requires Scanning(content, i, s)
    ensures ReportsFrom(names, content, i, s, Run(names, content, i, s))
    decreases |content| - i
  {
    if i == |content| {
      TailExact(names, content, s);
    } else {
      var o := Step(names, content, i, s);
      StepScans(names, content, i, s);
      RunExact(names, content, i + 1, o.next);
      StepReports(names, content, i, s);
    }
  }

  /**
   * find_matches reports exactly the known names of the content, the one
   * running to its end included, left to right without overlap.
   */
  lemma FindMatchesExact(names: Names, content: string)
    ensures var r := FindMatches(names, content);
      && (forall m :: m in r <==> Candidate(names, content, m))
      && Ordered(r)
  {
    RunExact(names, content, 0, Start);
  }

  /** The name lookup ignores case: a word and its upper-cased form are equally known. */
  lemma KnownIgnoresCase(names: Names, target: string)
    ensures Known(names, target) == Known(names, Upper(target))
  {
    assert Upper(Upper(target)) == Upper(target);
  }
}
