/**
 * The tokenizer of the word-frequency fallback:
 * `re.findall(r'\b[a-zA-Z]{3,}\b', t)` on already lower-cased text, modelled
 * as the regular-expression engine runs it (a boundary test, a greedy letter
 * run that gives back one letter at a time, a second boundary test, and a
 * scan that resumes after each match or one position further on a miss).
 * Word characters are ASCII letters, digits and the underscore.
 */
module Tokenize {
  import opened Wrappers
  import opened PyStr

  /** A `\w` character of the pattern's word boundaries. */
  predicate IsWordChar(c: char) { IsAsciiLetter(c) || IsDigit(c) || c == '_' }

  predicate WordBefore(t: string, k: nat)
    requires k <= |t|
  {
    0 < k && IsWordChar(t[k - 1])
  }

  predicate WordAfter(t: string, k: nat)
    requires k <= |t|
  {
    k < |t| && IsWordChar(t[k])
  }

  /** `\b` holds at position `k`: a word character on exactly one side of it. */
  predicate Boundary(t: string, k: nat)
    requires k <= |t|
  {
    WordBefore(t, k) != WordAfter(t, k)
  }

  /** `{3,}`: the fewest letters a match holds. */
  const MinLetters: nat := 3

  /** How far the greedy `[a-zA-Z]*` part reaches from `i`. */
  function LetterRunEnd(t: string, i: nat): (e: nat)
    requires i <= |t|
    ensures i <= e <= |t|
    ensures forall k :: i <= k < e ==> IsAsciiLetter(t[k])
    ensures e == |t| || !IsAsciiLetter(t[e])
    decreases |t| - i
  {
    if i < |t| && IsAsciiLetter(t[i]) then LetterRunEnd(t, i + 1) else i
  }

  /**
   * Backtracking over the end of the letter run: try `k`, then `k - 1`, ...,
   * down to `i + 3`, and stop at the first end where the closing `\b` holds.
   */
  function TryEnd(t: string, i: nat, k: nat): (m: Option<nat>)
    requires i <= k <= |t|
    ensures m.Some? ==> i + MinLetters <= m.value <= k && Boundary(t, m.value)
    decreases k
  {
    if k < i + MinLetters then None
    else if Boundary(t, k) then Some(k)
    else TryEnd(t, i, k - 1)
  }

  /** The end of the match that starts at `i`, if the pattern matches there. */
  function MatchAt(t: string, i: nat): (m: Option<nat>)
    requires i <= |t|
    ensures m.Some? ==> i + MinLetters <= m.value <= |t|
    ensures m.Some? ==> forall k :: i <= k < m.value ==> IsAsciiLetter(t[k])
    ensures m.Some? ==> Boundary(t, i) && Boundary(t, m.value)
  {
    if Boundary(t, i) then TryEnd(t, i, LetterRunEnd(t, i)) else None
  }

  /**
   * `re.findall` from position `i`: every match, scanning left to right.
   * Each token is at least three letters and nothing else.
   */
  function FindAll(t: string, i: nat): (ws: seq<string>)
    requires i <= |t|
    ensures forall w :: w in ws ==> |w| >= MinLetters && AllLetters(w)
    decreases |t| - i
  {
    if i == |t| then []
    else
      match MatchAt(t, i)
      case Some(e) =>
        assert AllLetters(t[i..e]) by {
          assert forall k :: 0 <= k < e - i ==> t[i..e][k] == t[i + k];
        }
        [t[i..e]] + FindAll(t, e)
      case None => FindAll(t, i + 1)
  }

  /** The end of the run of word characters that starts at `i`. */
  function WordRunEnd(t: string, i: nat): (e: nat)
    requires i <= |t|
    ensures i <= e <= |t|
    ensures forall k :: i <= k < e ==> IsWordChar(t[k])
    ensures e == |t| || !IsWordChar(t[e])
    decreases |t| - i
  {
    if i < |t| && IsWordChar(t[i]) then WordRunEnd(t, i + 1) else i
  }

  predicate AllLetters(w: string) {
    forall k :: 0 <= k < |w| ==> IsAsciiLetter(w[k])
  }

  /**
   * The tokens described without the regular-expression engine: split the text
   * into maximal runs of word characters and keep the runs that are all
   * letters and at least three long.
   */
  function RunTokens(t: string, i: nat): (ws: seq<string>)
    requires i <= |t|
    ensures forall w :: w in ws ==> |w| >= MinLetters && AllLetters(w)
    decreases |t| - i
  {
    if i == |t| then []
    else if !IsWordChar(t[i]) then RunTokens(t, i + 1)
    else
      var e := WordRunEnd(t, i);
      (if e - i >= MinLetters && AllLetters(t[i..e]) then [t[i..e]] else []) + RunTokens(t, e)
  }

  /** Inside a run of letters followed by another word character, no end position satisfies `\b`. */
  lemma {:induction false} TryEndFailsBeforeWordChar(t: string, i: nat, k: nat)
    requires i <= k < |t| && IsWordChar(t[k])
    requires forall j :: i <= j < k ==> IsAsciiLetter(t[j])
    ensures TryEnd(t, i, k) == None
    decreases k
  {
    if k >= i + MinLetters {
      assert !Boundary(t, k);
      TryEndFailsBeforeWordChar(t, i, k - 1);
    }
  }

  /**
   * At the start of a run of word characters the pattern matches exactly when
   * the run is all letters and at least three long, and the match is the run.
   */
  lemma MatchAtRunStart(t: string, i: nat)
    requires i < |t| && IsWordChar(t[i]) && !WordBefore(t, i)
    ensures var e := WordRunEnd(t, i);
      MatchAt(t, i) == if e - i >= MinLetters && AllLetters(t[i..e]) then Some(e) else None
  {
    var e := WordRunEnd(t, i);
    var l := LetterRunEnd(t, i);
    assert Boundary(t, i);
    if AllLetters(t[i..e]) {
      assert l == e;
      if e - i >= MinLetters {
        assert Boundary(t, e);
      }
    } else {
      var k :| 0 <= k < |t[i..e]| && !IsAsciiLetter(t[i..e][k]);
      assert t[i..e][k] == t[i + k];
      assert l < e;
      TryEndFailsBeforeWordChar(t, i, l);
    }
  }

  /** Positions strictly inside a run of word characters start no match. */
  lemma {:induction false} FindAllSkipsRun(t: string, i: nat, j: nat, e: nat)
    requires i < j <= e <= |t|
    requires forall k :: i <= k < e ==> IsWordChar(t[k])
    ensures FindAll(t, j) == FindAll(t, e)
    decreases e - j
  {
    if j < e {
      assert WordBefore(t, j) && WordAfter(t, j);
      assert MatchAt(t, j) == None;
      FindAllSkipsRun(t, i, j + 1, e);
    }
  }

  /**
   * The regular-expression scan finds exactly the maximal all-letter runs of
   * word characters that are at least three long, in order: a letter run that
   * touches a digit or an underscore is not a token.
   */
  lemma {:induction false} FindAllIsRunTokens(t: string, i: nat)
    requires i <= |t|
    requires !(WordBefore(t, i) && WordAfter(t, i))
    ensures FindAll(t, i) == RunTokens(t, i)
    decreases |t| - i
  {
    if i == |t| {
    } else if !IsWordChar(t[i]) {
      assert LetterRunEnd(t, i) == i;
      assert MatchAt(t, i) == None;
      FindAllIsRunTokens(t, i + 1);
    } else {
      var e := WordRunEnd(t, i);
      MatchAtRunStart(t, i);
      FindAllIsRunTokens(t, e);
      if !(e - i >= MinLetters && AllLetters(t[i..e])) {
        FindAllSkipsRun(t, i, i + 1, e);
      }
    }
  }

  /** A token as the fallback counts it: at least three letters, all lower-case a to z. */
  predicate IsLowerWord(w: string) {
    |w| >= MinLetters && forall k :: 0 <= k < |w| ==> IsAsciiLower(w[k])
  }

  /**
   * `re.findall(r'\b[a-zA-Z]{3,}\b', text.lower())`: every token is a maximal
   * run of at least three lower-case letters.
   */
  function Words(text: string): (ws: seq<string>)
    ensures ws == RunTokens(Lower(text), 0)
    ensures forall w :: w in ws ==> IsLowerWord(w)
  {
    var t := Lower(text);
    FindAllIsRunTokens(t, 0);
    TokensOfLowerAreLower(t, 0);
    FindAll(t, 0)
  }

  lemma {:induction false} TokensOfLowerAreLower(t: string, i: nat)
    requires i <= |t|
    requires forall k :: 0 <= k < |t| ==> !IsAsciiUpper(t[k])
    ensures forall w :: w in RunTokens(t, i) ==> IsLowerWord(w)
    decreases |t| - i
  {
    if i < |t| {
      if !IsWordChar(t[i]) {
        TokensOfLowerAreLower(t, i + 1);
      } else {
        var e := WordRunEnd(t, i);
        TokensOfLowerAreLower(t, e);
        var w := t[i..e];
        assert forall k :: 0 <= k < |w| ==> w[k] == t[i + k];
      }
    }
  }
}
