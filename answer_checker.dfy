/** Flexible answer checking: trimmed case-insensitive equality for every
    question type, plus fraction equivalence and punctuation-insensitive
    equality for fill-in questions and keyword or word-overlap matching for
    short-answer questions. */
module AnswerChecker {
  import opened Strings

  // ---------------------------------------------------------------------
  // Fractions: `^(\d+)\/(\d+)$`
  // ---------------------------------------------------------------------

  /** `s` matches `^(\d+)\/(\d+)$` with the slash at position `k`. */
  predicate FractionAt(s: string, k: int) {
    0 < k < |s| - 1 && s[k] == '/' && AllDigits(s[..k]) && AllDigits(s[k + 1..])
  }

  /** The numerator and denominator of a string that matches the fraction
      pattern, as `parseInt` reads them. */
  function ParseFraction(s: string): Option<(nat, nat)>
  {
    var parts := Split(s, '/');
    if |parts| == 2 && parts[0] != [] && parts[1] != [] && AllDigits(parts[0]) && AllDigits(parts[1])
    then Some((ParseDigits(parts[0]), ParseDigits(parts[1])))
    else None
  }

  lemma {:induction false} SplitAround(x: string, c: char, y: string)
    requires forall i :: 0 <= i < |x| ==> x[i] != c
    requires forall i :: 0 <= i < |y| ==> y[i] != c
    ensures Split(x + [c] + y, c) == [x, y]
  {
    if x == [] {
      assert x + [c] + y == [c] + y;
      SplitWithout(y, c);
      assert ([c] + y)[1..] == y;
    } else {
      SplitAround(x[1..], c, y);
      assert (x + [c] + y)[1..] == x[1..] + [c] + y;
      assert [x[0]] + x[1..] == x;
    }
  }

  /** `ParseFraction` succeeds exactly on the strings the regular
      expression accepts, and reads the digits on each side of the slash. */
  lemma ParseFractionSpec(s: string)
    ensures ParseFraction(s).Some? <==> exists k :: FractionAt(s, k)
    ensures forall k :: FractionAt(s, k) ==>
              ParseFraction(s) == Some((ParseDigits(s[..k]), ParseDigits(s[k + 1..])))
  {
    forall k | FractionAt(s, k)
      ensures ParseFraction(s) == Some((ParseDigits(s[..k]), ParseDigits(s[k + 1..])))
    {
      assert s == s[..k] + ['/'] + s[k + 1..];
      SplitAround(s[..k], '/', s[k + 1..]);
    }
    if ParseFraction(s).Some? {
      var parts := Split(s, '/');
      JoinSplit(s, '/');
      assert s == parts[0] + ['/'] + parts[1];
      assert s[..|parts[0]|] == parts[0] && s[|parts[0]| + 1..] == parts[1];
      assert FractionAt(s, |parts[0]|);
    }
  }

  /** `areFractionsEquivalent`: both strings are fractions and their cross
      products agree. */
  function FractionsEquivalent(user: string, correct: string): bool
  {
    match (ParseFraction(user), ParseFraction(correct))
    case (Some((a, b)), Some((c, d))) => a * d == c * b
    case _ => false
  }

  lemma FractionsEquivalentSpec(user: string, correct: string)
    ensures FractionsEquivalent(user, correct) <==>
              exists k, m :: FractionAt(user, k) && FractionAt(correct, m)
                && ParseDigits(user[..k]) * ParseDigits(correct[m + 1..])
                   == ParseDigits(correct[..m]) * ParseDigits(user[k + 1..])
    ensures FractionsEquivalent(user, correct) == FractionsEquivalent(correct, user)
  {
    ParseFractionSpec(user);
    ParseFractionSpec(correct);
  }

  // ---------------------------------------------------------------------
  // normalizeText
  // ---------------------------------------------------------------------

  /** The characters of the class `[.,!?;:()]`. */
  predicate IsPunctuation(c: char) {
    c == '.' || c == ',' || c == '!' || c == '?' || c == ';' || c == ':' || c == '(' || c == ')'
  }

  function RemovePunctuation(s: string): (r: string)
    ensures forall i :: 0 <= i < |r| ==> !IsPunctuation(r[i]) && r[i] in s
  {
    if s == [] then []
    else if IsPunctuation(s[0]) then RemovePunctuation(s[1..])
    else [s[0]] + RemovePunctuation(s[1..])
  }

  /** Removing punctuation distributes over concatenation; with
      `RemovePunctuationOne` this says that every other character survives,
      in its order. */
  lemma {:induction false} RemovePunctuationAppend(a: string, b: string)
    ensures RemovePunctuation(a + b) == RemovePunctuation(a) + RemovePunctuation(b)
  {
    if a == [] {
      assert a + b == b;
    } else {
      var ab := a + b;
      assert ab[0] == a[0] && ab[1..] == a[1..] + b;
      RemovePunctuationAppend(a[1..], b);
      if IsPunctuation(a[0]) {
        assert RemovePunctuation(ab) == RemovePunctuation(ab[1..]);
      } else {
        assert RemovePunctuation(ab) == [a[0]] + RemovePunctuation(ab[1..]);
      }
    }
  }

  /** A single character is dropped iff it is punctuation. */
  lemma RemovePunctuationOne(c: char)
    ensures RemovePunctuation([c]) == if IsPunctuation(c) then [] else [c]
  {
    assert [c][1..] == [];
  }

  /** Two white-space characters in a row at `i`. */
  predicate DoubleSpaceAt(s: string, i: int) {
    0 <= i < |s| - 1 && IsSpace(s[i]) && IsSpace(s[i + 1])
  }

  /** `replace(/\s+/g, ' ')`: every run of white space becomes one space. */
  function CollapseSpaces(s: string): (r: string)
    decreases |s|
    ensures forall i :: 0 <= i < |r| ==> r[i] == ' ' || !IsSpace(r[i])
    ensures forall i :: !DoubleSpaceAt(r, i)
    ensures s != [] && !IsSpace(s[0]) ==> r != [] && r[0] == s[0]
  {
    if s == [] then []
    else if IsSpace(s[0]) then
      var rest := TrimStart(s);
      assert |rest| < |s|;
      var tail := CollapseSpaces(rest);
      assert forall i :: 1 <= i ==> DoubleSpaceAt([' '] + tail, i) ==> DoubleSpaceAt(tail, i - 1);
      [' '] + tail
    else
      var tail := CollapseSpaces(s[1..]);
      assert forall i :: 1 <= i ==> DoubleSpaceAt([s[0]] + tail, i) ==> DoubleSpaceAt(tail, i - 1);
      [s[0]] + tail
  }

  /** Collapsing introduces no character other than the space: any
      property of characters that the space and every character of `s`
      have, every character of the result has. */
  lemma {:induction false} CollapseKeeps(s: string, p: char -> bool)
    requires p(' ')
    requires forall i :: 0 <= i < |s| ==> p(s[i])
    ensures forall i :: 0 <= i < |CollapseSpaces(s)| ==> p(CollapseSpaces(s)[i])
  {
    if s != [] {
      if IsSpace(s[0]) {
        var t := TrimStart(s);
        assert forall i :: 0 <= i < |t| ==> t[i] == s[|s| - |t| + i];
        CollapseKeeps(t, p);
      } else {
        CollapseKeeps(s[1..], p);
      }
    }
  }

  /** Every white-space character written as a plain space. */
  function Blanked(s: string): string
  {
    seq(|s|, i requires 0 <= i < |s| => if IsSpace(s[i]) then ' ' else s[i])
  }

  /** Drops every space that follows a space. */
  function Squeezed(s: string): string
  {
    if |s| <= 1 then s
    else if s[0] == ' ' && s[1] == ' ' then Squeezed(s[1..])
    else [s[0]] + Squeezed(s[1..])
  }

  /** A run of `k` spaces followed by something other than a space
      squeezes to one space. */
  lemma {:induction false} SqueezedRun(t: string, k: nat)
    requires 1 <= k <= |t|
    requires forall i :: 0 <= i < k ==> t[i] == ' '
    requires k == |t| || t[k] != ' '
    decreases k
    ensures Squeezed(t) == [' '] + Squeezed(t[k..])
  {
    if k > 1 {
      SqueezedRun(t[1..], k - 1);
      assert t[1..][k - 1..] == t[k..];
    }
  }

  /** `replace(/\s+/g, ' ')` against a reference definition: write every
      white-space character as a space, then drop the spaces that follow a
      space. Together with `CollapseSpaces`' own contract this says that
      all other characters are kept, in order. */
  lemma {:induction false} CollapseSpacesSpec(s: string)
    decreases |s|
    ensures CollapseSpaces(s) == Squeezed(Blanked(s))
  {
    var b := Blanked(s);
    if s == [] {
      assert b == [];
    } else if IsSpace(s[0]) {
      var rest := TrimStart(s);
      var k := |s| - |rest|;
      assert 1 <= k;
      CollapseSpacesSpec(rest);
      assert b[k..] == Blanked(rest);
      SqueezedRun(b, k);
    } else {
      CollapseSpacesSpec(s[1..]);
      assert b[1..] == Blanked(s[1..]);
      if |s| == 1 {
        assert CollapseSpaces(s) == [s[0]] + CollapseSpaces([]);
      }
    }
  }

  /** `normalizeText`: lower case, no punctuation, single spaces, trimmed. */
  function Normalize(s: string): string
  {
    Trim(CollapseSpaces(RemovePunctuation(Lower(s))))
  }

  predicate Clean(c: char) {
    !('A' <= c <= 'Z') && !IsPunctuation(c) && (IsSpace(c) ==> c == ' ')
  }

  /** The shape of a normalised text. */
  ghost predicate IsNormal(s: string) {
    && (forall i :: 0 <= i < |s| ==> Clean(s[i]))
    && (forall i :: !DoubleSpaceAt(s, i))
    && (s == [] || (!IsSpace(s[0]) && !IsSpace(s[|s| - 1])))
  }

  predicate Unaccented(c: char) {
    !('A' <= c <= 'Z') && !IsPunctuation(c)
  }

  lemma CollapsedIsClean(s: string)
    ensures forall i :: 0 <= i < |CollapseSpaces(RemovePunctuation(Lower(s)))| ==>
              Clean(CollapseSpaces(RemovePunctuation(Lower(s)))[i])
  {
    var low := Lower(s);
    var np := RemovePunctuation(low);
    forall i | 0 <= i < |np| ensures Unaccented(np[i]) {
      var j :| 0 <= j < |low| && low[j] == np[i];
    }
    CollapseKeeps(np, Unaccented);
  }

  /** A slice of a clean text without double spaces is such a text. */
  lemma SliceKeepsShape(col: string, t: string, i: nat)
    requires i + |t| <= |col| && t == col[i..i + |t|]
    requires forall k :: 0 <= k < |col| ==> Clean(col[k])
    requires forall k :: !DoubleSpaceAt(col, k)
    ensures forall k :: 0 <= k < |t| ==> Clean(t[k])
    ensures forall k :: !DoubleSpaceAt(t, k)
  {
    forall k | 0 <= k < |t| ensures Clean(t[k]) {
      assert t[k] == col[i + k];
    }
    forall k | 0 <= k < |t| - 1 ensures !DoubleSpaceAt(t, k) {
      assert !DoubleSpaceAt(col, i + k);
      assert t[k] == col[i + k] && t[k + 1] == col[i + k + 1];
    }
  }

  lemma TrimOfCollapsed(col: string)
    requires forall i :: 0 <= i < |col| ==> Clean(col[i])
    requires forall i :: !DoubleSpaceAt(col, i)
    ensures IsNormal(Trim(col))
  {
    var t := Trim(col);
    var i := |col| - |TrimStart(col)|;
    assert i + |t| <= |col| && t == col[i..i + |t|] by {
      TrimSlice(col);
    }
    assert t == [] || (!IsSpace(t[0]) && !IsSpace(t[|t| - 1])) by {
      TrimEnds(col);
    }
    NormalSlice(col, t, i);
  }

  /** A slice of a clean text without double spaces, with no white space
      at either end, is normal. */
  lemma NormalSlice(col: string, t: string, i: nat)
    requires i + |t| <= |col| && t == col[i..i + |t|]
    requires forall k :: 0 <= k < |col| ==> Clean(col[k])
    requires forall k :: !DoubleSpaceAt(col, k)
    requires t == [] || (!IsSpace(t[0]) && !IsSpace(t[|t| - 1]))
    ensures IsNormal(t)
  {
    SliceKeepsShape(col, t, i);
  }

  lemma NormalizeIsNormal(s: string)
    ensures IsNormal(Normalize(s))
  {
    CollapsedIsClean(s);
    TrimOfCollapsed(CollapseSpaces(RemovePunctuation(Lower(s))));
  }

  lemma {:induction false} RemovePunctuationFixed(s: string)
    requires forall i :: 0 <= i < |s| ==> !IsPunctuation(s[i])
    ensures RemovePunctuation(s) == s
  {
    if s != [] {
      RemovePunctuationFixed(s[1..]);
      assert [s[0]] + s[1..] == s;
    }
  }

  lemma {:induction false} CollapseFixed(s: string)
    requires forall i :: 0 <= i < |s| ==> IsSpace(s[i]) ==> s[i] == ' '
    requires forall i :: !DoubleSpaceAt(s, i)
    ensures CollapseSpaces(s) == s
  {
    if s != [] {
      assert forall i :: DoubleSpaceAt(s[1..], i) ==> DoubleSpaceAt(s, i + 1);
      CollapseFixed(s[1..]);
      if IsSpace(s[0]) {
        assert !DoubleSpaceAt(s, 0);
        assert TrimStart(s) == s[1..];
      }
      assert [s[0]] + s[1..] == s;
    }
  }

  lemma NormalOfNormal(s: string)
    requires IsNormal(s)
    ensures Normalize(s) == s
  {
    assert Lower(s) == s;
    RemovePunctuationFixed(s);
    CollapseFixed(s);
    TrimOfTrimmed(s);
  }

  /** `normalizeText` is idempotent. */
  lemma NormalizeIdempotent(s: string)
    ensures Normalize(Normalize(s)) == Normalize(s)
  {
    NormalizeIsNormal(s);
    NormalOfNormal(Normalize(s));
  }

  // ---------------------------------------------------------------------
  // Keyword and overlap matching
  // ---------------------------------------------------------------------

  const FillerWords: set<string> :=
    {"the", "a", "an", "is", "are", "was", "were", "to", "of", "in", "on", "at", "and", "or"}

  /** `words.filter(w => w.length > 0 && !fillerWords.has(w))`. */
  function Keywords(words: seq<string>): (r: seq<string>)
    ensures forall w :: w in r <==> w in words && w != [] && w !in FillerWords
  {
    if words == [] then []
    else if words[0] != [] && words[0] !in FillerWords then [words[0]] + Keywords(words[1..])
    else Keywords(words[1..])
  }

  /** `containsKeywords`: every keyword of the normalised correct answer is
      a substring of the normalised user answer. */
  predicate ContainsKeywords(user: string, correct: string) {
    var userNorm := Normalize(user);
    var keywords := Keywords(Split(Normalize(correct), ' '));
    forall i :: 0 <= i < |keywords| ==> Contains(userNorm, keywords[i])
  }

  lemma ContainsKeywordsSpec(user: string, correct: string)
    ensures ContainsKeywords(user, correct) <==>
              forall w :: w in Split(Normalize(correct), ' ') && w != [] && w !in FillerWords ==>
                Contains(Normalize(user), w)
  {
    var words, userNorm := Split(Normalize(correct), ' '), Normalize(user);
    KeywordsAllFound(words, userNorm);
    assert ContainsKeywords(user, correct) <==>
             forall i :: 0 <= i < |Keywords(words)| ==> Contains(userNorm, Keywords(words)[i]);
  }

  lemma KeywordsAllFound(words: seq<string>, userNorm: string)
    ensures (forall i :: 0 <= i < |Keywords(words)| ==> Contains(userNorm, Keywords(words)[i])) <==>
              forall w :: w in words && w != [] && w !in FillerWords ==> Contains(userNorm, w)
  {
    var keywords := Keywords(words);
    if forall i :: 0 <= i < |keywords| ==> Contains(userNorm, keywords[i]) {
      forall w | w in words && w != [] && w !in FillerWords
        ensures Contains(userNorm, w)
      {
        var i :| 0 <= i < |keywords| && keywords[i] == w;
      }
    } else {
      var i :| 0 <= i < |keywords| && !Contains(userNorm, keywords[i]);
      assert keywords[i] in keywords;
    }
  }

  /** The number of entries of `words` that belong to `found`
      (`words.filter(w => found.has(w)).length`). */
  function CountFound(words: seq<string>, found: set<string>): (n: nat)
    ensures n <= |words|
    ensures (forall i :: 0 <= i < |words| ==> words[i] in found) ==> n == |words|
    ensures (forall i :: 0 <= i < |words| ==> words[i] !in found) ==> n == 0
  {
    if words == [] then 0 else (if words[0] in found then 1 else 0) + CountFound(words[1..], found)
  }

  /** The words of the normalised correct answer, with repetitions. */
  function CorrectWords(correct: string): (r: seq<string>)
    ensures |r| >= 1
  {
    Split(Normalize(correct), ' ')
  }

  /** The set of words of the normalised user answer. */
  function UserWords(user: string): set<string>
  {
    set w | w in Split(Normalize(user), ' ')
  }

  /** The 60% rule: at least three fifths of the correct answer's words
      (counted with repetition) are words of the user's answer. */
  predicate OverlapAccepts(user: string, correct: string) {
    5 * CountFound(CorrectWords(correct), UserWords(user)) >= 3 * |CorrectWords(correct)|
  }

  /** Every correct word found accepts; no correct word found rejects. */
  lemma OverlapBounds(user: string, correct: string)
    ensures (forall i :: 0 <= i < |CorrectWords(correct)| ==> CorrectWords(correct)[i] in UserWords(user))
              ==> OverlapAccepts(user, correct)
    ensures (forall i :: 0 <= i < |CorrectWords(correct)| ==> CorrectWords(correct)[i] !in UserWords(user))
              ==> !OverlapAccepts(user, correct)
  {
  }

  // ---------------------------------------------------------------------
  // checkAnswer
  // ---------------------------------------------------------------------

  /** `checkAnswer(userAnswer, correctAnswer, questionType)`. */
  function CheckAnswer(userAnswer: string, correctAnswer: string, questionType: string): bool
  {
    var user := Trim(userAnswer);
    var correct := Trim(correctAnswer);
    if user == [] then false
    else if Lower(user) == Lower(correct) then true
    else if questionType == "fill-in" && (FractionsEquivalent(user, correct) || Normalize(user) == Normalize(correct)) then true
    else if questionType == "short-answer" then ContainsKeywords(user, correct) || OverlapAccepts(user, correct)
    else false
  }

  /** An answer that is empty after trimming is wrong, whatever the type. */
  lemma EmptyIsWrong(userAnswer: string, correctAnswer: string, questionType: string)
    requires Trim(userAnswer) == []
    ensures !CheckAnswer(userAnswer, correctAnswer, questionType)
  {
  }

  /** Trimmed, case-insensitively equal answers are right for every type;
      in particular every non-blank answer matches itself. */
  lemma ExactMatchIsRight(userAnswer: string, correctAnswer: string, questionType: string)
    requires Trim(userAnswer) != [] && Lower(Trim(userAnswer)) == Lower(Trim(correctAnswer))
    ensures CheckAnswer(userAnswer, correctAnswer, questionType)
  {
  }

  lemma Reflexive(answer: string, questionType: string)
    ensures CheckAnswer(answer, answer, questionType) <==> Trim(answer) != []
  {
  }

  /** Multiple-choice and true/false answers (any type other than fill-in
      and short-answer) are right exactly on a case-insensitive match. */
  lemma OtherTypesExactOnly(userAnswer: string, correctAnswer: string, questionType: string)
    requires questionType != "fill-in" && questionType != "short-answer"
    ensures CheckAnswer(userAnswer, correctAnswer, questionType) <==>
              Trim(userAnswer) != [] && Lower(Trim(userAnswer)) == Lower(Trim(correctAnswer))
  {
  }

  /** A fill-in answer is right iff it matches exactly, is an equivalent
      fraction, or agrees after normalisation. */
  lemma FillInSpec(userAnswer: string, correctAnswer: string)
    ensures var u, c := Trim(userAnswer), Trim(correctAnswer);
            CheckAnswer(userAnswer, correctAnswer, "fill-in") <==>
              u != [] && (Lower(u) == Lower(c) || FractionsEquivalent(u, c) || Normalize(u) == Normalize(c))
  {
  }

  /** A short-answer is right iff it matches exactly, contains every keyword
      of the correct answer, or shares at least 60% of its words. */
  lemma ShortAnswerSpec(userAnswer: string, correctAnswer: string)
    ensures var u, c := Trim(userAnswer), Trim(correctAnswer);
            CheckAnswer(userAnswer, correctAnswer, "short-answer") <==>
              u != [] && (Lower(u) == Lower(c) || ContainsKeywords(u, c) || OverlapAccepts(u, c))
  {
  }
}
