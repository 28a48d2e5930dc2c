/**
 * What the two dictionary rules (lib/address_rule.cpp, lib/name_rule.cpp)
 * call a word: a chunk is a maximal stretch of text without a delimiter, and
 * the word of a chunk runs from the chunk's first upper-case letter to the
 * chunk's end. Only the ASCII letters A-Z count as upper case.
 */
module Words {

  predicate IsUpper(c: char)
  {
    'A' <= c <= 'Z'
  }

  /** std::toupper on ASCII: a-z map to A-Z, everything else is kept. */
  function ToUpper(c: char): (u: char)
    ensures 'a' <= c <= 'z' ==> IsUpper(u) && u as int == c as int - 32
    ensures !('a' <= c <= 'z') ==> u == c
  {
    if 'a' <= c <= 'z' then (c as int - 32) as char else c
  }

  /** A string upper-cased character by character. */
  function Upper(s: string): (u: string)
    ensures |u| == |s|
    ensures forall k :: 0 <= k < |s| ==> u[k] == ToUpper(s[k])
  {
    seq(|s|, k requires 0 <= k < |s| => ToUpper(s[k]))
  }

  /** The delimiter sets: the address rule ends a word only at a space, the name rule also at '.', '\n' and NUL. */
  datatype Delims = SpaceOnly | NameEnds

  predicate IsEnd(d: Delims, c: char)
  {
    match d
    case SpaceOnly => c == ' '
    case NameEnds => c == '.' || c == ' ' || c == '\n' || c == '\0'
  }

  /** Where the chunk holding position i (or ending just before it) begins: one past the last delimiter before i. */
  function ChunkStart(d: Delims, s: seq<char>, i: nat): (k: nat)
    requires i <= |s|
    ensures k <= i
    ensures k == 0 || IsEnd(d, s[k - 1])
    ensures forall j :: k <= j < i ==> !IsEnd(d, s[j])
  {
    if i == 0 then 0
    else if IsEnd(d, s[i - 1]) then i
    else ChunkStart(d, s, i - 1)
  }

  /** b holds the first upper-case letter of its chunk. */
  ghost predicate WordStart(d: Delims, s: seq<char>, b: nat)
    requires b < |s|
  {
    IsUpper(s[b]) && forall k :: ChunkStart(d, s, b) <= k < b ==> !IsUpper(s[k])
  }

  /** s[b..e] is the word of a chunk: it starts at the chunk's first upper-case letter and runs to the chunk's end. */
  ghost predicate WordAt(d: Delims, s: seq<char>, b: nat, e: nat)
  {
    && b < e <= |s|
    && WordStart(d, s, b)
    && (forall k :: b <= k < e ==> !IsEnd(d, s[k]))
    && (e == |s| || IsEnd(d, s[e]))
  }

  /** Positions with no delimiter between them lie in the same chunk. */
  lemma {:induction false} SameChunk(d: Delims, s: seq<char>, b: nat, i: nat)
    requires b <= i <= |s|
    requires forall k :: b <= k < i ==> !IsEnd(d, s[k])
    ensures ChunkStart(d, s, i) == ChunkStart(d, s, b)
    decreases i
  {
    if i > b {
      SameChunk(d, s, b, i - 1);
    }
  }

  /** A chunk has at most one word start. */
  lemma OneStartPerChunk(d: Delims, s: seq<char>, a: nat, b: nat)
    requires a < |s| && b < |s|
    requires WordStart(d, s, a) && WordStart(d, s, b)
    requires ChunkStart(d, s, a) == ChunkStart(d, s, b)
    ensures a == b
  {
  }

  /** Scanning state inside a word: it began at a word start b before i and no delimiter has come since. */
  ghost predicate Open(d: Delims, s: seq<char>, i: nat, b: nat)
  {
    && b < i <= |s|
    && WordStart(d, s, b)
    && (forall k :: b <= k < i ==> !IsEnd(d, s[k]))
  }

  /** Scanning state outside a word: the chunk reaching i has no upper-case letter before i. */
  ghost predicate Closed(d: Delims, s: seq<char>, i: nat)
  {
    i <= |s| && forall k :: ChunkStart(d, s, i) <= k < i ==> !IsUpper(s[k])
  }

  /** What the rules' loops know before index i: open at `begin` when inside a word, closed otherwise. */
  ghost predicate Between(d: Delims, s: seq<char>, i: nat, inWord: bool, begin: nat)
  {
    (inWord ==> Open(d, s, i, begin)) && (!inWord ==> Closed(d, s, i))
  }

  /** A word that began before i and has not ended by i is the one the scan holds open. */
  lemma OpenWord(d: Delims, s: seq<char>, i: nat, inWord: bool, begin: nat, b: nat, e: nat)
    requires Between(d, s, i, inWord, begin) && i <= |s|
    requires WordAt(d, s, b, e) && b < i <= e
    ensures inWord && begin == b
  {
    SameChunk(d, s, b, i);
    assert inWord;
    SameChunk(d, s, begin, i);
    OneStartPerChunk(d, s, begin, b);
  }

  /** After a delimiter a new chunk begins, so the scan is outside a word. */
  lemma ClosedAfterEnd(d: Delims, s: seq<char>, i: nat)
    requires i < |s| && IsEnd(d, s[i])
    ensures Closed(d, s, i + 1)
  {
    assert ChunkStart(d, s, i + 1) == i + 1;
  }

  /** Outside a word, a character that is neither a delimiter nor upper case keeps the scan outside. */
  lemma ClosedExtends(d: Delims, s: seq<char>, i: nat)
    requires Closed(d, s, i) && i < |s| && !IsEnd(d, s[i]) && !IsUpper(s[i])
    ensures Closed(d, s, i + 1)
  {
    SameChunk(d, s, i, i + 1);
  }

  /** Outside a word, an upper-case letter starts the word of its chunk. */
  lemma Opens(d: Delims, s: seq<char>, i: nat)
    requires Closed(d, s, i) && i < |s| && IsUpper(s[i])
    ensures Open(d, s, i + 1, i)
  {
  }

  /** Inside a word, a character that is no delimiter keeps the word open. */
  lemma OpenExtends(d: Delims, s: seq<char>, i: nat, b: nat)
    requires Open(d, s, i, b) && i < |s| && !IsEnd(d, s[i])
    ensures Open(d, s, i + 1, b)
  {
  }

  /** The word held open at i is complete when s[i] ends it. */
  lemma OpenCloses(d: Delims, s: seq<char>, i: nat, b: nat)
    requires Open(d, s, i, b) && (i == |s| || IsEnd(d, s[i]))
    ensures WordAt(d, s, b, i)
  {
  }
}
