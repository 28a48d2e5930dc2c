/**
 * AddressRule::find_matches (lib/address_rule.cpp): a street name is a word
 * of the dictionary that is followed by a space; it is reported only when a
 * house number follows that space, and the reported text is the street name,
 * one space and the number. The street-name dictionary is a set of strings.
 */
module AddressRule {
  import opened Optional
  import opened Rules
  import opened CprChars
  import opened Words

  /** The loop's registers: whether a word is open, where it began, and the characters collected since. */
  datatype Scan = Scan(inWord: bool, begin: nat, address: string)

  datatype Outcome = Outcome(next: Scan, emitted: Option<MatchResult>)

  const Start: Scan := Scan(false, 0, "")

  /**
   * One iteration on character c at index i: an upper-case letter outside a
   * word opens one; inside a word a space closes it (reporting the collected
   * text when the dictionary holds it, with the space's index as end) and
   * any other character is collected.
   */
  function Step(dict: set<string>, c: char, i: nat, s: Scan): (o: Outcome)
    ensures o.emitted.Some? ==> var m := o.emitted.value;
      c == ' ' && m.end == i && m.text in dict && !o.next.inWord
  {
    var t := if IsUpper(c) && !s.inWord then Scan(true, i, "") else s;
    if !t.inWord then Outcome(t, None)
    else if c == ' ' then
      Outcome(t.(inWord := false), if t.address in dict then Some(NewMatch(t.address, t.begin, i)) else None)
    else Outcome(t.(address := t.address + [c]), None)
  }

  /** The loop from index i on. */
  function Run(dict: set<string>, content: string, i: nat, s: Scan): (r: seq<MatchResult>)
    requires i <= |content|
    ensures |r| <= |content| - i
    ensures forall m :: m in r ==> i <= m.end < |content| && content[m.end] == ' ' && m.text in dict
    decreases |content| - i
  {
    if i == |content| then []
    else
      var o := Step(dict, content[i], i, s);
      (if o.emitted.Some? then [o.emitted.value] else []) + Run(dict, content, i + 1, o.next)
  }

  /** The street names found before the house numbers are looked for. */
  function Candidates(dict: set<string>, content: string): (r: seq<MatchResult>)
    ensures |r| <= |content|
    ensures forall m :: m in r ==> m.end < |content| && content[m.end] == ' ' && m.text in dict
  {
    Run(dict, content, 0, Start)
  }

  /** The length of the run of digits starting at index i. */
  function DigitRun(s: string, i: nat): (n: nat)
    requires i <= |s|
    ensures i + n <= |s|
    ensures forall k :: i <= k < i + n ==> IsDigit(s[k])
    ensures i + n == |s| || !IsDigit(s[i + n])
    decreases |s| - i
  {
    if i < |s| && IsDigit(s[i]) then 1 + DigitRun(s, i + 1) else 0
  }

  /**
   * append_number: the street name must be followed by a space and a digit
   * 1-9; the whole run of digits from there is the house number. The result
   * keeps the start and ends at the number's last digit. An end at the
   * content's size reads the string's terminating NUL, which is no space.
   */
  function AppendNumber(m: MatchResult, content: string): (r: Option<MatchResult>)
    ensures r.Some? <==> m.end + 1 < |content| && content[m.end] == ' ' && IsNonzeroDigit(content[m.end + 1])
    ensures r.Some? ==>
      && r.value.start == m.start
      && m.end + 1 <= r.value.end < |content|
      && r.value.text == m.text + " " + content[m.end + 1..r.value.end + 1]
      && (forall k :: m.end < k <= r.value.end ==> IsDigit(content[k]))
      && (r.value.end + 1 == |content| || !IsDigit(content[r.value.end + 1]))
      && r.value.sensitivity == Critical && r.value.probability == 1.0
  {
    if m.end + 1 == |content| then None
    else if m.end >= |content| || content[m.end] != ' ' then None
    else if !IsNonzeroDigit(content[m.end + 1]) then None
    else
      var n := DigitRun(content, m.end + 1);
      Some(NewMatch(m.text + " " + content[m.end + 1..m.end + 1 + n], m.start, m.end + n))
  }

  /** filter_matches: the candidates a house number completes, in order. */
  function FilterMatches(ms: seq<MatchResult>, content: string): (r: seq<MatchResult>)
    ensures |r| <= |ms|
    ensures forall x :: x in r <==> exists m :: m in ms && AppendNumber(m, content) == Some(x)
  {
    if |ms| == 0 then []
    else
      var a := AppendNumber(ms[0], content);
      (if a.Some? then [a.value] else []) + FilterMatches(ms[1..], content)
  }

  function FindMatches(dict: set<string>, content: string): (r: seq<MatchResult>)
    ensures |r| <= |content|
    ensures forall m :: m in r ==> m.end < |content| && IsDigit(content[m.end])
  {
    FilterMatches(Candidates(dict, content), content)
  }

  /** A street name of the dictionary: the word of a chunk that a space closes. */
  ghost predicate Candidate(dict: set<string>, content: string, m: MatchResult)
  {
    && m.end < |content|
    && WordAt(SpaceOnly, content, m.start, m.end)
    && m == NewMatch(content[m.start..m.end], m.start, m.end)
    && m.text in dict
  }

  /**
   * The loop invariant: the scan is open at its begin index or closed, as
   * Words.Between describes, and an open word has collected exactly the
   * characters since its start.
   */
  ghost predicate Scanning(content: string, i: nat, s: Scan)
  {
    && i <= |content|
    && Between(SpaceOnly, content, i, s.inWord, s.begin)
    && (s.inWord ==> s.address == content[s.begin..i])
  }

  /** The earliest start a match reported from here on can have. */
  function Lower(i: nat, s: Scan): nat
  {
    if s.inWord then s.begin else i
  }

  /** A space closes any open word, and the next chunk starts after it. */
  lemma StepOnSpace(dict: set<string>, content: string, i: nat, s: Scan)
    requires Scanning(content, i, s) && i < |content| && content[i] == ' '
    ensures var o := Step(dict, content[i], i, s);
      Scanning(content, i + 1, o.next) && !o.next.inWord
  {
    ClosedAfterEnd(SpaceOnly, content, i);
  }

  /** Any other character opens a word, extends the open one, or leaves the scan outside a word. */
  lemma StepOnOther(dict: set<string>, content: string, i: nat, s: Scan)
    requires Scanning(content, i, s) && i < |content| && content[i] != ' '
    ensures var o := Step(dict, content[i], i, s);
      && Scanning(content, i + 1, o.next)
      && (o.next.inWord ==> o.next.begin == Lower(i, s))
  {
    var c := content[i];
    if s.inWord {
      OpenExtends(SpaceOnly, content, i, s.begin);
      assert Step(dict, c, i, s).next == s.(address := s.address + [c]);
      assert content[s.begin..i + 1] == content[s.begin..i] + [c];
    } else if IsUpper(c) {
      Opens(SpaceOnly, content, i);
      assert Step(dict, c, i, s).next == Scan(true, i, [c]);
    } else {
      ClosedExtends(SpaceOnly, content, i);
      assert Step(dict, c, i, s).next == s;
    }
  }

  /** One iteration keeps the invariant; a word open after it began where the earliest report could. */
  lemma StepScans(dict: set<string>, content: string, i: nat, s: Scan)
    requires Scanning(content, i, s) && i < |content|
    ensures var o := Step(dict, content[i], i, s);
      && Scanning(content, i + 1, o.next)
      && (o.next.inWord ==> o.next.begin == Lower(i, s))
  {
    if content[i] == ' ' {
      StepOnSpace(dict, content, i, s);
    } else {
      StepOnOther(dict, content, i, s);
    }
  }

  /** One iteration reports a match exactly when a candidate ends at i, and then closes the word. */
  lemma StepEmits(dict: set<string>, content: string, i: nat, s: Scan)
    requires Scanning(content, i, s) && i < |content|
    ensures var o := Step(dict, content[i], i, s);
      && (o.emitted.Some? ==>
            && Candidate(dict, content, o.emitted.value)
            && o.emitted.value.end == i
            && o.emitted.value.start == Lower(i, s)
            && !o.next.inWord)
      && (forall m :: Candidate(dict, content, m) && m.end == i ==> o.emitted == Some(m))
  {
    var o := Step(dict, content[i], i, s);
    if s.inWord && content[i] == ' ' {
      OpenCloses(SpaceOnly, content, i, s.begin);
    }
    forall m | Candidate(dict, content, m) && m.end == i
      ensures o.emitted == Some(m)
    {
      OpenWord(SpaceOnly, content, i, s.inWord, s.begin, m.start, m.end);
    }
  }

  /**
   * From a state meeting the invariant, the loop reports exactly the
   * candidates that end at or after i, left to right.
   */
  lemma {:induction false} RunExact(dict: set<string>, content: string, i: nat, s: Scan)
    requires Scanning(content, i, s)
    ensures var r := Run(dict, content, i, s);
      && (forall m :: m in r <==> Candidate(dict, content, m) && m.end >= i)
      && (forall m :: m in r ==> m.start >= Lower(i, s))
      && Ordered(r)
    decreases |content| - i
  {
    if i < |content| {
      var o := Step(dict, content[i], i, s);
      StepScans(dict, content, i, s);
      StepEmits(dict, content, i, s);
      RunExact(dict, content, i + 1, o.next);
      var rest := Run(dict, content, i + 1, o.next);
      if o.emitted.Some? {
        OrderedCons(o.emitted.value, rest, i + 1);
        assert Run(dict, content, i, s) == [o.emitted.value] + rest;
      } else {
        assert Run(dict, content, i, s) == rest;
      }
    }
  }

  /**
   * The candidates are exactly the dictionary words that a space closes, in
   * text order. A word running to the end of the content is never one.
   */
  lemma CandidatesExact(dict: set<string>, content: string)
    ensures var r := Candidates(dict, content);
      && (forall m :: m in r <==> Candidate(dict, content, m))
      && Ordered(r)
  {
    RunExact(dict, content, 0, Start);
  }

  /** A street name starting after m's end cannot start inside m's house number, which holds only digits. */
  lemma NumberBeforeNext(m: MatchResult, next: MatchResult, content: string)
    requires AppendNumber(m, content).Some?
    requires m.end < next.start < |content| && IsUpper(content[next.start])
    ensures AppendNumber(m, content).value.end < next.start
  {
  }

  /** Street names in order, each starting with an upper-case letter, stay in order once their numbers are appended. */
  lemma {:induction false} FilterOrdered(ms: seq<MatchResult>, content: string)
    requires forall a, b :: 0 <= a < b < |ms| ==> ms[a].end < ms[b].start
    requires forall m :: m in ms ==> m.start < |content| && IsUpper(content[m.start])
    ensures Ordered(FilterMatches(ms, content))
    decreases |ms|
  {
    if |ms| > 0 {
      var rest := FilterMatches(ms[1..], content);
      FilterOrdered(ms[1..], content);
      var a := AppendNumber(ms[0], content);
      if a.Some? {
        forall y | y in rest
          ensures y.start >= a.value.end + 1
        {
          var m :| m in ms[1..] && AppendNumber(m, content) == Some(y);
          var j :| 0 <= j < |ms[1..]| && ms[1..][j] == m;
          assert ms[0].end < ms[j + 1].start;
          NumberBeforeNext(ms[0], m, content);
        }
        OrderedCons(a.value, rest, a.value.end + 1);
        assert FilterMatches(ms, content) == [a.value] + rest;
      } else {
        assert FilterMatches(ms, content) == rest;
      }
    }
  }

  /**
   * find_matches reports exactly the candidates a house number completes,
   * each as street name, space and number, left to right without overlap.
   */
  lemma FindMatchesExact(dict: set<string>, content: string)
    ensures var r := FindMatches(dict, content);
      && (forall x :: x in r <==> exists m :: Candidate(dict, content, m) && AppendNumber(m, content) == Some(x))
      && Ordered(r)
  {
    var cs := Candidates(dict, content);
    CandidatesExact(dict, content);
    FilterOrdered(cs, content);
  }

  /** Street name without a space, then a space, then digits: the space is the only one. */
  lemma NumberedTextOneSpace(m: MatchResult, content: string, x: MatchResult)
    requires m.start <= m.end < |content| && m.text == content[m.start..m.end]
    requires forall k :: m.start <= k < m.end ==> content[k] != ' '
    requires AppendNumber(m, content) == Some(x)
    ensures x.text[|m.text|] == ' '
    ensures forall j :: 0 <= j < |x.text| && x.text[j] == ' ' ==> j == |m.text|
  {
    var n := |m.text|;
    var digits := content[m.end + 1..x.end + 1];
    assert x.text == m.text + " " + digits;
    forall j | 0 <= j < |x.text| && j != n
      ensures x.text[j] != ' '
    {
      if j < n {
        assert x.text[j] == m.text[j] == content[m.start + j];
      } else {
        assert x.text[j] == digits[j - n - 1] == content[m.end + j - n];
      }
    }
  }

  /**
   * A reported address holds exactly one space, the one between street name
   * and number: a candidate never extends past a space, so a street name of
   * several words is never reported whole.
   */
  lemma OneSpace(dict: set<string>, content: string, x: MatchResult)
    requires x in FindMatches(dict, content)
    ensures exists k :: 0 <= k < |x.text| && x.text[k] == ' '
    ensures forall j, k :: 0 <= j < k < |x.text| && x.text[j] == ' ' ==> x.text[k] != ' '
  {
    FindMatchesExact(dict, content);
    var m :| Candidate(dict, content, m) && AppendNumber(m, content) == Some(x);
    NumberedTextOneSpace(m, content, x);
  }
}
