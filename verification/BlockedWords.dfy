/** The blocked-word engine: literal dictionary words are matched case-insensitively between
    letter-or-number boundaries, leftmost first and without overlap, and replaced by `****`.

    Each word is searched for in the original text but replaced in the text as masked so far.
    The main result is that this never leaves, creates or uncovers a blocked word. */
module BlockedWords {

  import opened Prelude

  const MASK: string := "****"

  /** Character knowledge of the regular-expression engine: simple case folding, and which
      folded characters are letters or numbers. */
  datatype Alphabet = Alphabet(fold: char -> char, letterOrNumber: char -> bool) {

    predicate IsWordChar(c: char) {
      letterOrNumber(fold(c))
    }

    predicate Same(c: char, d: char) {
      fold(c) == fold(d)
    }

    /** `word` has at least one character, and none that matches the mask character. */
    predicate Literal(word: string) {
      |word| > 0 && forall i :: 0 <= i < |word| ==> !Same(word[i], '*')
    }

    /** Both ends of `word` are word characters (`b`), or neither is. */
    predicate Ends(word: string, b: bool)
      requires |word| > 0
    {
      IsWordChar(word[0]) == b && IsWordChar(word[|word| - 1]) == b
    }
  }

  // ---------- Compiling a literal ----------

  const SYNTAX: string := ".*+?^${}()|[]\\"

  /** Puts a backslash before every syntax character. */
  function Escape(literal: string): string {
    if literal == "" then ""
    else (if literal[0] in SYNTAX then ['\\', literal[0]] else [literal[0]]) + Escape(literal[1..])
  }

  /** The literal characters a pattern source stands for, or None when it has a live operator. */
  function ReadLiteral(source: string): Option<string> {
    if source == "" then Some("")
    else if source[0] == '\\' then
      if |source| == 1 || source[1] !in SYNTAX then None else Prefixed(source[1], ReadLiteral(source[2..]))
    else if source[0] in SYNTAX then None
    else Prefixed(source[0], ReadLiteral(source[1..]))
  }

  function Prefixed(c: char, rest: Option<string>): Option<string> {
    if rest.None? then None else Some([c] + rest.value)
  }

  /** An escaped literal is a pattern for exactly that literal. */
  lemma {:induction false} EscapeRoundTrip(literal: string)
    ensures ReadLiteral(Escape(literal)) == Some(literal)
  {
    if literal == "" {
    } else {
      EscapeRoundTrip(literal[1..]);
      if literal[0] in SYNTAX {
        assert Escape(literal) == ['\\', literal[0]] + Escape(literal[1..]);
        assert Escape(literal)[2..] == Escape(literal[1..]) && [literal[0]] + literal[1..] == literal;
      } else {
        assert SYNTAX[13] == '\\';
        assert Escape(literal)[1..] == Escape(literal[1..]) && [literal[0]] + literal[1..] == literal;
      }
    }
  }

  // ---------- Matching one word ----------

  predicate OccursAt(ab: Alphabet, word: string, text: string, p: nat) {
    p + |word| <= |text| && forall i :: 0 <= i < |word| ==> ab.Same(text[p + i], word[i])
  }

  /** The program's pattern matches at `p`: an occurrence with no word character next to it. */
  predicate BoundedAt(ab: Alphabet, word: string, text: string, p: nat) {
    && OccursAt(ab, word, text, p)
    && (p == 0 || !ab.IsWordChar(text[p - 1]))
    && (p + |word| == |text| || !ab.IsWordChar(text[p + |word|]))
  }

  predicate Occurs(ab: Alphabet, word: string, text: string) {
    exists p :: 0 <= p <= |text| && BoundedAt(ab, word, text, p)
  }

  function Folded(ab: Alphabet, s: string): string {
    seq(|s|, i requires 0 <= i < |s| => ab.fold(s[i]))
  }

  /** A match is an equal stretch of folded text with no folded letter or number next to it. */
  lemma BoundedExact(ab: Alphabet, word: string, text: string, p: nat)
    ensures BoundedAt(ab, word, text, p) <==>
      && p + |word| <= |text| && Folded(ab, text)[p..p + |word|] == Folded(ab, word)
      && (p > 0 ==> !ab.letterOrNumber(Folded(ab, text)[p - 1]))
      && (p + |word| < |text| ==> !ab.letterOrNumber(Folded(ab, text)[p + |word|]))
  {
    if p + |word| <= |text| {
      var part, want := Folded(ab, text)[p..p + |word|], Folded(ab, word);
      assert forall i :: 0 <= i < |word| ==> part[i] == ab.fold(text[p + i]) && want[i] == ab.fold(word[i]);
      if OccursAt(ab, word, text, p) {
        assert forall i :: 0 <= i < |word| ==> ab.Same(text[p + i], word[i]);
        assert part == want;
      } else {
        var i :| 0 <= i < |word| && !ab.Same(text[p + i], word[i]);
        assert part[i] != want[i];
      }
    }
  }

  /** Global matching from `from`: the search resumes behind each match, one further when the
      match was empty. */
  function Matches(ab: Alphabet, word: string, text: string, from: nat): seq<nat>
    decreases |text| + 1 - from
  {
    if from > |text| then []
    else if BoundedAt(ab, word, text, from) then
      [from] + Matches(ab, word, text, if |word| > 0 then from + |word| else from + 1)
    else Matches(ab, word, text, from + 1)
  }

  /** `matches` is in order, without overlap, and every element matches. */
  predicate Separate(ab: Alphabet, word: string, text: string, from: nat, matches: seq<nat>)
    decreases |matches|
  {
    matches != [] ==>
      && from <= matches[0]
      && BoundedAt(ab, word, text, matches[0])
      && Separate(ab, word, text, matches[0] + |word|, matches[1..])
  }

  lemma {:induction false} MatchesSeparate(ab: Alphabet, word: string, text: string, from: nat, start: nat)
    requires start <= from
    ensures Separate(ab, word, text, start, Matches(ab, word, text, from))
    decreases |text| + 1 - from
  {
    if from > |text| {
    } else {
      if BoundedAt(ab, word, text, from) {
        MatchesSeparate(ab, word, text, if |word| > 0 then from + |word| else from + 1, from + |word|);
      } else {
        MatchesSeparate(ab, word, text, from + 1, start);
      }
    }
  }

  predicate Covers(matches: seq<nat>, n: nat, p: nat) {
    exists i :: 0 <= i < |matches| && matches[i] <= p < matches[i] + n
  }

  /** Every place where the word could match is covered by some match. */
  lemma {:induction false} MatchesComplete(ab: Alphabet, word: string, text: string, from: nat, p: nat)
    requires |word| > 0 && from <= p && BoundedAt(ab, word, text, p)
    ensures Covers(Matches(ab, word, text, from), |word|, p)
    decreases |text| + 1 - from
  {
    var found := Matches(ab, word, text, from);
    if BoundedAt(ab, word, text, from) {
      assert found[0] == from;
      if p >= from + |word| {
        MatchesComplete(ab, word, text, from + |word|, p);
        var rest := Matches(ab, word, text, from + |word|);
        var i :| 0 <= i < |rest| && rest[i] <= p < rest[i] + |word|;
        assert found[i + 1] == rest[i];
      }
    } else {
      MatchesComplete(ab, word, text, from + 1, p);
    }
  }

  lemma {:induction false} MatchesAreBounded(ab: Alphabet, word: string, text: string, from: nat)
    ensures forall p :: p in Matches(ab, word, text, from) ==> from <= p <= |text| && BoundedAt(ab, word, text, p)
    decreases |text| + 1 - from
  {
    if from > |text| {
    } else {
      MatchesAreBounded(ab, word, text,
        if BoundedAt(ab, word, text, from) && |word| > 0 then from + |word| else from + 1);
    }
  }

  lemma MatchesWithin(ab: Alphabet, word: string, text: string)
    ensures forall p :: p in Matches(ab, word, text, 0) ==> p + |word| <= |text|
  {
    MatchesAreBounded(ab, word, text, 0);
  }

  /** A non-empty word has a match exactly when it occurs between boundaries. */
  lemma FoundIffOccurs(ab: Alphabet, word: string, text: string)
    requires |word| > 0
    ensures Matches(ab, word, text, 0) != [] <==> Occurs(ab, word, text)
  {
    MatchesAreBounded(ab, word, text, 0);
    var found := Matches(ab, word, text, 0);
    if found != [] {
      assert found[0] in found;
    }
    if p :| 0 <= p <= |text| && BoundedAt(ab, word, text, p) {
      MatchesComplete(ab, word, text, 0, p);
    }
  }

  /** Case does not matter: a word and a text that fold to the same characters as others are
      matched in exactly the same places. */
  lemma CaseIrrelevant(ab: Alphabet, word: string, word': string, text: string, text': string, from: nat)
    requires |word| == |word'| && forall i :: 0 <= i < |word| ==> ab.fold(word[i]) == ab.fold(word'[i])
    requires |text| == |text'| && forall i :: 0 <= i < |text| ==> ab.fold(text[i]) == ab.fold(text'[i])
    ensures forall p: nat :: BoundedAt(ab, word, text, p) == BoundedAt(ab, word', text', p)
    ensures Matches(ab, word, text, from) == Matches(ab, word', text', from)
  {
    assert Folded(ab, word) == Folded(ab, word') && Folded(ab, text) == Folded(ab, text');
    forall p: nat ensures BoundedAt(ab, word, text, p) == BoundedAt(ab, word', text', p) {
      BoundedExact(ab, word, text, p);
      BoundedExact(ab, word', text', p);
    }
    MatchesAgree(ab, word, word', text, text', from);
  }

  lemma {:induction false} MatchesAgree(ab: Alphabet, word: string, word': string, text: string, text': string,
                                        from: nat)
    requires |word| == |word'| && |text| == |text'|
    requires forall p: nat :: BoundedAt(ab, word, text, p) == BoundedAt(ab, word', text', p)
    ensures Matches(ab, word, text, from) == Matches(ab, word', text', from)
    decreases |text| + 1 - from
  {
    if from > |text| {
    } else {
      hide BoundedAt;
      MatchesAgree(ab, word, word', text, text',
        if BoundedAt(ab, word, text, from) && |word| > 0 then from + |word| else from + 1);
    }
  }

  // ---------- Masking one word ----------

  /** `text[last..]` with the mask in place of the `n` characters at each match. */
  function Replace(text: string, n: nat, matches: seq<nat>, last: nat): string
    requires last <= |text|
  {
    if matches == [] then text[last..]
    else if last <= matches[0] && matches[0] + n <= |text| then
      text[last..matches[0]] + MASK + Replace(text, n, matches[1..], matches[0] + n)
    else text[last..]
  }

  function Mask(ab: Alphabet, word: string, text: string): string {
    Replace(text, |word|, Matches(ab, word, text, 0), 0)
  }

  /** `gaps` with `fillers` between them. */
  function Interleaved(gaps: seq<string>, fillers: seq<string>): string
    requires |gaps| == |fillers| + 1
  {
    if fillers == [] then gaps[0] else gaps[0] + fillers[0] + Interleaved(gaps[1..], fillers[1..])
  }

  function Masks(k: nat): seq<string> {
    seq(k, _ => MASK)
  }

  /** The matched stretches of a text. */
  function Found(text: string, n: nat, matches: seq<nat>): seq<string>
    requires forall i :: 0 <= i < |matches| ==> matches[i] + n <= |text|
  {
    seq(|matches|, i requires 0 <= i < |matches| => text[matches[i]..matches[i] + n])
  }

  /** The stretches of `text[last..]` between the matches. */
  function Gaps(text: string, n: nat, matches: seq<nat>, last: nat): (gaps: seq<string>)
    requires last <= |text|
    ensures |gaps| == |matches| + 1
    decreases |matches|
  {
    if matches == [] then [text[last..]]
    else if last <= matches[0] && matches[0] + n <= |text| then
      [text[last..matches[0]]] + Gaps(text, n, matches[1..], matches[0] + n)
    else [""] + Gaps(text, n, matches[1..], last)
  }

  /** Masking puts the mask in place of each match and keeps every other character: the same gaps
      give the text with the matched stretches between them and the masked text with masks. */
  lemma MaskKeepsRest(ab: Alphabet, word: string, text: string)
    ensures var found := Matches(ab, word, text, 0);
      && (forall i :: 0 <= i < |found| ==> found[i] + |word| <= |text|)
      && Interleaved(Gaps(text, |word|, found, 0), Found(text, |word|, found)) == text
      && Interleaved(Gaps(text, |word|, found, 0), Masks(|found|)) == Mask(ab, word, text)
  {
    var found := Matches(ab, word, text, 0);
    MatchesSeparate(ab, word, text, 0, 0);
    MatchesWithin(ab, word, text);
    assert forall i :: 0 <= i < |found| ==> found[i] in found;
    ReplaceKeepsRest(ab, word, text, 0, found);
    assert text[0..] == text;
  }

  lemma {:induction false} ReplaceKeepsRest(ab: Alphabet, word: string, text: string, last: nat, matches: seq<nat>)
    requires last <= |text| && Separate(ab, word, text, last, matches)
    requires forall i :: 0 <= i < |matches| ==> matches[i] + |word| <= |text|
    ensures var gaps := Gaps(text, |word|, matches, last);
      && Interleaved(gaps, Found(text, |word|, matches)) == text[last..]
      && Interleaved(gaps, Masks(|matches|)) == Replace(text, |word|, matches, last)
    decreases |matches|
  {
    if matches == [] {
    } else {
      hide BoundedAt;
      var n, m, rest := |word|, matches[0], matches[1..];
      assert forall i :: 0 <= i < |rest| ==> rest[i] == matches[i + 1];
      ReplaceKeepsRest(ab, word, text, m + n, rest);
      hide Interleaved, Gaps, Replace, Separate;
      OneGap(text, n, matches, last);
    }
  }

  /** The first gap and match come apart from the rest. */
  lemma OneGap(text: string, n: nat, matches: seq<nat>, last: nat)
    requires matches != [] && last <= matches[0] && forall i :: 0 <= i < |matches| ==> matches[i] + n <= |text|
    ensures var m, rest := matches[0], matches[1..];
      var gaps, more := Gaps(text, n, matches, last), Gaps(text, n, rest, m + n);
      && (forall i :: 0 <= i < |rest| ==> rest[i] + n <= |text|)
      && (Interleaved(more, Found(text, n, rest)) == text[m + n..] ==>
            Interleaved(gaps, Found(text, n, matches)) == text[last..])
      && (Interleaved(more, Masks(|rest|)) == Replace(text, n, rest, m + n) ==>
            Interleaved(gaps, Masks(|matches|)) == Replace(text, n, matches, last))
  {
    var m, rest := matches[0], matches[1..];
    var gaps, more := Gaps(text, n, matches, last), Gaps(text, n, rest, m + n);
    assert gaps[1..] == more;
    assert Found(text, n, matches)[1..] == Found(text, n, rest);
    assert Masks(|matches|)[1..] == Masks(|rest|);
    assert text[last..m] + text[m..m + n] + text[m + n..] == text[last..];
  }

  predicate Outside(matches: seq<nat>, n: nat, p: nat, m: nat) {
    forall i :: 0 <= i < |matches| ==> p + m <= matches[i] || matches[i] + n <= p
  }

  /** Where an occurrence of `other` at `q` in the masked tail of `text` comes from: the same
      characters stand outside every match in `text`, between the same kind of boundaries. */
  lemma {:induction false} Unmask(ab: Alphabet, word: string, other: string, text: string, b: bool,
                                  matches: seq<nat>, last: nat, q: nat) returns (p: nat)
    requires !ab.IsWordChar('*') && ab.Literal(word) && ab.Literal(other) && ab.Ends(word, b) && ab.Ends(other, b)
    requires last <= |text| && Separate(ab, word, text, last, matches)
    requires last == 0 || (last >= |word| && BoundedAt(ab, word, text, last - |word|))
    requires BoundedAt(ab, other, Replace(text, |word|, matches, last), q)
    ensures last <= p && BoundedAt(ab, other, text, p) && Outside(matches, |word|, p, |other|)
    decreases |matches|
  {
    hide BoundedAt, Replace;
    var m := if matches == [] then |text| else matches[0];
    if q + |other| <= m - last {
      p := last + q;
      UnmaskBefore(ab, word, other, text, b, matches, last, q);
      if matches != [] {
        SeparateBeyond(ab, word, text, last, matches);
      }
    } else {
      UnmaskBehind(ab, word, other, text, matches, last, q);
      var next := m + |word|;
      assert next - |word| == m;
      p := Unmask(ab, word, other, text, b, matches[1..], next, q - (m - last) - 4);
      assert forall i :: 1 <= i < |matches| ==> matches[i] == matches[1..][i - 1];
    }
  }

  /** The case of an occurrence in the unmasked stretch before the next match. */
  lemma UnmaskBefore(ab: Alphabet, word: string, other: string, text: string, b: bool, matches: seq<nat>, last: nat,
                     q: nat)
    requires |word| > 0 && |other| > 0 && ab.Ends(word, b) && ab.Ends(other, b)
    requires last <= |text| && Separate(ab, word, text, last, matches)
    requires last == 0 || (last >= |word| && BoundedAt(ab, word, text, last - |word|))
    requires q + |other| <= (if matches == [] then |text| else matches[0]) - last
    requires BoundedAt(ab, other, Replace(text, |word|, matches, last), q)
    ensures BoundedAt(ab, other, text, last + q)
  {
    if matches == [] {
      assert text[last..] + "" == text[last..];
      InHead(ab, other, text, last, |text|, "", q);
    } else {
      var m := matches[0];
      var rest := Replace(text, |word|, matches[1..], m + |word|);
      assert text[last..m] + MASK + rest == text[last..m] + (MASK + rest);
      InHead(ab, other, text, last, m, MASK + rest, q);
      RightBoundary(ab, word, other, text, b, m, last + q);
    }
    LeftBoundary(ab, word, other, text, b, last, q);
  }

  /** The other case: the occurrence lies wholly behind the mask of the next match. */
  lemma UnmaskBehind(ab: Alphabet, word: string, other: string, text: string, matches: seq<nat>, last: nat, q: nat)
    requires ab.Literal(other) && last <= |text| && Separate(ab, word, text, last, matches)
    requires q + |other| > (if matches == [] then |text| else matches[0]) - last
    requires BoundedAt(ab, other, Replace(text, |word|, matches, last), q)
    ensures matches != [] && q >= matches[0] - last + 4 && matches[0] + |word| <= |text|
    ensures BoundedAt(ab, other, Replace(text, |word|, matches[1..], matches[0] + |word|), q - (matches[0] - last) - 4)
  {
    var m := matches[0];
    var kept, rest := text[last..m], Replace(text, |word|, matches[1..], m + |word|);
    assert kept + MASK + rest == kept + (MASK + rest);
    if q < |kept| + 4 {
      NotInMask(ab, other, kept, rest, q);
    }
    InTail(ab, other, kept + MASK, rest, q);
  }

  /** An occurrence within an unmasked stretch `text[last..m]`, up to the edges of the stretch. */
  lemma InHead(ab: Alphabet, other: string, text: string, last: nat, m: nat, tail: string, q: nat)
    requires last <= m <= |text| && q + |other| <= m - last
    requires BoundedAt(ab, other, text[last..m] + tail, q)
    ensures OccursAt(ab, other, text, last + q)
    ensures q > 0 ==> !ab.IsWordChar(text[last + q - 1])
    ensures last + q + |other| < m ==> !ab.IsWordChar(text[last + q + |other|])
  {
    var out := text[last..m] + tail;
    assert forall i {:trigger out[i]} :: 0 <= i < m - last ==> out[i] == text[last + i];
    forall i | 0 <= i < |other| ensures ab.Same(text[last + q + i], other[i]) {
      assert ab.Same(out[q + i], other[i]);
    }
    if q > 0 {
      assert out[q - 1] == text[last + (q - 1)];
    }
    if last + q + |other| < m {
      assert out[q + |other|] == text[last + (q + |other|)];
    }
  }

  lemma InTail(ab: Alphabet, other: string, head: string, tail: string, q: nat)
    requires |head| <= q && BoundedAt(ab, other, head + tail, q)
    ensures BoundedAt(ab, other, tail, q - |head|)
  {
    var out, q' := head + tail, q - |head|;
    forall i | 0 <= i < |other| ensures ab.Same(tail[q' + i], other[i]) {
      assert ab.Same(out[q + i], other[i]);
    }
  }

  /** No occurrence of a word without mask characters touches the mask. */
  lemma NotInMask(ab: Alphabet, other: string, head: string, tail: string, q: nat)
    requires ab.Literal(other) && |head| < q + |other| && q < |head| + 4
    ensures !OccursAt(ab, other, head + (MASK + tail), q)
  {
    var out := head + (MASK + tail);
    var i := if q < |head| then |head| - q else 0;
    assert out[q + i] == '*';
    assert !ab.Same(other[i], '*');
  }

  /** An occurrence that starts the tail behind a match has no word character before it. */
  lemma LeftBoundary(ab: Alphabet, word: string, other: string, text: string, b: bool, last: nat, q: nat)
    requires |word| > 0 && |other| > 0 && ab.Ends(word, b) && ab.Ends(other, b)
    requires OccursAt(ab, other, text, last + q)
    requires last == 0 || (last >= |word| && BoundedAt(ab, word, text, last - |word|))
    requires q > 0 ==> !ab.IsWordChar(text[last + q - 1])
    ensures last + q == 0 || !ab.IsWordChar(text[last + q - 1])
  {
    if q == 0 && last > 0 {
      assert ab.Same(text[last + 0], other[0]);
      assert ab.Same(text[last - |word| + (|word| - 1)], word[|word| - 1]);
    }
  }

  /** An occurrence that ends where a match begins has no word character behind it. */
  lemma RightBoundary(ab: Alphabet, word: string, other: string, text: string, b: bool, m: nat, p: nat)
    requires |word| > 0 && |other| > 0 && ab.Ends(word, b) && ab.Ends(other, b)
    requires OccursAt(ab, other, text, p) && BoundedAt(ab, word, text, m)
    ensures p + |other| == m ==> m < |text| && !ab.IsWordChar(text[m])
  {
    if p + |other| == m {
      assert ab.Same(text[p + (|other| - 1)], other[|other| - 1]);
      assert ab.Same(text[m + 0], word[0]);
    }
  }

  lemma {:induction false} SeparateBeyond(ab: Alphabet, word: string, text: string, from: nat, matches: seq<nat>)
    requires Separate(ab, word, text, from, matches) && matches != []
    ensures forall i :: 0 <= i < |matches| ==> matches[0] <= matches[i]
    decreases |matches|
  {
    if |matches| == 1 {
    } else {
      SeparateBeyond(ab, word, text, matches[0] + |word|, matches[1..]);
      assert forall i :: 1 <= i < |matches| ==> matches[i] == matches[1..][i - 1];
    }
  }

  /** Masking one word creates and uncovers no occurrence of any word, and leaves none of its own. */
  lemma MaskCreatesNothing(ab: Alphabet, word: string, other: string, text: string, b: bool)
    requires !ab.IsWordChar('*') && ab.Literal(word) && ab.Literal(other) && ab.Ends(word, b) && ab.Ends(other, b)
    ensures Occurs(ab, other, Mask(ab, word, text)) ==> Occurs(ab, other, text)
    ensures !Occurs(ab, word, Mask(ab, word, text))
  {
    var found := Matches(ab, word, text, 0);
    MatchesSeparate(ab, word, text, 0, 0);
    if q :| 0 <= q <= |Mask(ab, word, text)| && BoundedAt(ab, other, Mask(ab, word, text), q) {
      var p := Unmask(ab, word, other, text, b, found, 0, q);
    }
    if q :| 0 <= q <= |Mask(ab, word, text)| && BoundedAt(ab, word, Mask(ab, word, text), q) {
      var p := Unmask(ab, word, word, text, b, found, 0, q);
      MatchesComplete(ab, word, text, 0, p);
      assert false;
    }
  }

  /** Without common ends the guarantee breaks: the exact condition for a single word. */
  lemma SingleWordExact(ab: Alphabet, word: string)
    requires !ab.IsWordChar('*') && ab.Literal(word)
    ensures (forall text :: !Occurs(ab, word, Mask(ab, word, text))) <==>
      ab.IsWordChar(word[0]) == ab.IsWordChar(word[|word| - 1])
  {
    if ab.IsWordChar(word[0]) == ab.IsWordChar(word[|word| - 1]) {
      forall text ensures !Occurs(ab, word, Mask(ab, word, text)) {
        MaskCreatesNothing(ab, word, word, text, ab.IsWordChar(word[0]));
      }
    } else if ab.IsWordChar(word[0]) {
      SecondCopyMasked(ab, word);
    } else {
      FirstCopyMasked(ab, word);
    }
  }

  /** `!a`: in `!a!a` the first copy matches, and its mask uncovers the second. */
  lemma FirstCopyMasked(ab: Alphabet, word: string)
    requires !ab.IsWordChar('*') && ab.Literal(word)
    requires !ab.IsWordChar(word[0]) && ab.IsWordChar(word[|word| - 1])
    ensures Occurs(ab, word, Mask(ab, word, word + word))
  {
    var text, n := word + word, |word|;
    assert BoundedAt(ab, word, text, 0);
    MaskOnce(ab, word, text, 0);
    assert text[..0] + MASK + text[0 + n..] == MASK + word;
    assert BoundedAt(ab, word, MASK + word, 4);
  }

  /** `a!`: in `a!a!` only the last copy matches, and its mask uncovers the first. */
  lemma SecondCopyMasked(ab: Alphabet, word: string)
    requires !ab.IsWordChar('*') && ab.Literal(word)
    requires ab.IsWordChar(word[0]) && !ab.IsWordChar(word[|word| - 1])
    ensures Occurs(ab, word, Mask(ab, word, word + word))
  {
    var text, n := word + word, |word|;
    NotBeforeSecond(ab, word);
    SecondBounded(ab, word);
    BeyondEnd(ab, word, text, n);
    MaskOnce(ab, word, text, n);
    assert text[..n] + MASK + text[n + n..] == word + MASK;
    assert BoundedAt(ab, word, word + MASK, 0);
  }

  lemma NotBeforeSecond(ab: Alphabet, word: string)
    requires |word| > 0 && ab.IsWordChar(word[0])
    ensures forall p: nat :: p < |word| ==> !BoundedAt(ab, word, word + word, p)
  {
    var text, n := word + word, |word|;
    forall p: nat | p < n ensures !BoundedAt(ab, word, text, p) {
      if OccursAt(ab, word, text, p) {
        assert ab.Same(text[p + 0], word[0]) && text[p] == word[p] == text[p + n];
      }
    }
  }

  lemma SecondBounded(ab: Alphabet, word: string)
    requires |word| > 0 && !ab.IsWordChar(word[|word| - 1])
    ensures BoundedAt(ab, word, word + word, |word|)
  {
    assert forall i :: 0 <= i < |word| ==> (word + word)[|word| + i] == word[i];
  }

  lemma BeyondEnd(ab: Alphabet, word: string, text: string, n: nat)
    requires |word| > 0 && n + |word| == |text|
    ensures forall p: nat :: p > n ==> !BoundedAt(ab, word, text, p)
  {
  }

  /** Masking a text that matches at `p` only. */
  lemma MaskOnce(ab: Alphabet, word: string, text: string, p: nat)
    requires |word| > 0 && p + |word| <= |text| && BoundedAt(ab, word, text, p)
    requires forall j :: 0 <= j <= |text| && !(p <= j < p + |word|) ==> !BoundedAt(ab, word, text, j)
    ensures Mask(ab, word, text) == text[..p] + MASK + text[p + |word|..]
  {
    hide BoundedAt;
    NoMatchBeyond(ab, word, text, p + |word|);
    FirstMatch(ab, word, text, 0, p);
    assert Matches(ab, word, text, 0) == [p];
    ReplaceOne(text, |word|, p);
  }

  lemma ReplaceOne(text: string, n: nat, p: nat)
    requires p + n <= |text|
    ensures Replace(text, n, [p], 0) == text[..p] + MASK + text[p + n..]
  {
    assert Replace(text, n, [p][1..], p + n) == text[p + n..];
    assert text[0..p] == text[..p];
  }

  lemma {:induction false} FirstMatch(ab: Alphabet, word: string, text: string, from: nat, p: nat)
    requires |word| > 0 && from <= p <= |text| && BoundedAt(ab, word, text, p)
    requires forall j :: from <= j < p ==> !BoundedAt(ab, word, text, j)
    ensures Matches(ab, word, text, from) == [p] + Matches(ab, word, text, p + |word|)
    decreases p - from
  {
    if from == p {
    } else {
      FirstMatch(ab, word, text, from + 1, p);
    }
  }

  lemma {:induction false} NoMatchBeyond(ab: Alphabet, word: string, text: string, from: nat)
    requires |word| > 0 && forall p :: from <= p <= |text| ==> !BoundedAt(ab, word, text, p)
    ensures Matches(ab, word, text, from) == []
    decreases |text| + 1 - from
  {
    if from > |text| {
    } else {
      NoMatchBeyond(ab, word, text, from + 1);
    }
  }

  /** `n` mask characters. */
  function Stars(n: nat): string {
    seq(n, _ => '*')
  }

  /** Between mask characters a word of them matches wherever it fits. */
  lemma StarsMatch(ab: Alphabet, n: nat, m: nat, p: nat)
    requires !ab.IsWordChar('*') && p + n <= m
    ensures BoundedAt(ab, Stars(n), Stars(m), p)
  {
  }

  /** A text of `k` words of `n` mask characters is masked word by word. */
  lemma {:induction false} StarsMasked(ab: Alphabet, n: nat, m: nat, k: nat, last: nat)
    requires !ab.IsWordChar('*') && n > 0 && last <= m && m - last == n * k
    ensures Replace(Stars(m), n, Matches(ab, Stars(n), Stars(m), last), last) == Stars(4 * k)
    decreases k
  {
    var text := Stars(m);
    if k == 0 {
      assert Matches(ab, Stars(n), text, m) == [];
      assert text[m..] == Stars(0);
    } else {
      assert n * k == n + n * (k - 1);
      assert n * (k - 1) >= 0;
      StarsMatch(ab, n, m, last);
      StarsMasked(ab, n, m, k - 1, last + n);
      var rest := Matches(ab, Stars(n), text, last + n);
      assert Matches(ab, Stars(n), text, last) == [last] + rest;
      assert ([last] + rest)[1..] == rest;
      assert text[last..last] + MASK + Stars(4 * (k - 1)) == Stars(4 * k);
    }
  }

  /** No word made of mask characters is always masked away: `n` times `n` of them leave 4 * n. */
  lemma MaskCharacterSurvives(ab: Alphabet, n: nat)
    requires !ab.IsWordChar('*') && n > 0
    ensures Mask(ab, Stars(n), Stars(n * n)) == Stars(4 * n)
    ensures Occurs(ab, Stars(n), Mask(ab, Stars(n), Stars(n * n)))
  {
    StarsMasked(ab, n, n * n, n, 0);
    StarsMatch(ab, n, 4 * n, 0);
  }

  // ---------- Scanning with a dictionary ----------

  datatype Severity = Mild | Offensive | Critical {
    function Rank(): nat {
      match this case Mild => 1 case Offensive => 2 case Critical => 3
    }
  }

  datatype Action = MaskTerm | Reject | Escalate

  datatype CompiledWord = CompiledWord(literal: string, severity: Severity, action: Action)

  datatype Verdict = Verdict(severity: Severity, action: Action)

  datatype Scan = Scan(verdict: Option<Verdict>, matches: seq<string>, maskedText: string)

  /** `text` after the words of the dictionary that occur in it have masked it, in order. */
  function MaskAll(ab: Alphabet, dictionary: seq<CompiledWord>, text: string): string {
    if dictionary == [] then text
    else
      var word, sofar := dictionary[|dictionary| - 1].literal, MaskAll(ab, dictionary[..|dictionary| - 1], text);
      if Matches(ab, word, text, 0) == [] then sofar else Mask(ab, word, sofar)
  }

  /** All words are literals and share the class of their first and last characters; words
      that begin and end with a letter or number are the case `b == true`. */
  predicate Uniform(ab: Alphabet, dictionary: seq<CompiledWord>, b: bool) {
    forall w :: w in dictionary ==> ab.Literal(w.literal) && ab.Ends(w.literal, b)
  }

  lemma {:induction false} MaskAllOnlyRemoves(ab: Alphabet, dictionary: seq<CompiledWord>, text: string, b: bool,
                                              other: string)
    requires !ab.IsWordChar('*') && Uniform(ab, dictionary, b) && ab.Literal(other) && ab.Ends(other, b)
    ensures Occurs(ab, other, MaskAll(ab, dictionary, text)) ==> Occurs(ab, other, text)
    decreases |dictionary|
  {
    if dictionary == [] {
    } else {
      var last, rest := dictionary[|dictionary| - 1], dictionary[..|dictionary| - 1];
      MaskAllOnlyRemoves(ab, rest, text, b, other);
      MaskCreatesNothing(ab, last.literal, other, MaskAll(ab, rest, text), b);
    }
  }

  /** The masked text holds no word of the dictionary, whatever the dictionary order. */
  lemma {:induction false} MaskedTextIsClean(ab: Alphabet, dictionary: seq<CompiledWord>, text: string, b: bool,
                                             w: CompiledWord)
    requires !ab.IsWordChar('*') && Uniform(ab, dictionary, b) && w in dictionary
    ensures !Occurs(ab, w.literal, MaskAll(ab, dictionary, text))
    decreases |dictionary|
  {
    var last, rest := dictionary[|dictionary| - 1], dictionary[..|dictionary| - 1];
    assert dictionary == rest + [last];
    var sofar := MaskAll(ab, rest, text);
    MaskCreatesNothing(ab, last.literal, w.literal, sofar, b);
    if w in rest {
      MaskedTextIsClean(ab, rest, text, b, w);
    } else {
      MaskAllOnlyRemoves(ab, rest, text, b, w.literal);
      FoundIffOccurs(ab, w.literal, text);
    }
  }

  /** Both classes together are not enough: in `a!` the mask of `a` uncovers `!`. */
  lemma MixedDictionaryUncovers(ab: Alphabet, a: CompiledWord, b: CompiledWord, c: char, d: char)
    requires ab.IsWordChar(c) && !ab.IsWordChar(d) && !ab.IsWordChar('*') && !ab.Same(d, '*')
    requires a.literal == [c] && b.literal == [d]
    ensures Uniform(ab, [a], true) && Uniform(ab, [b], false)
    ensures MaskAll(ab, [a, b], [c, d]) == MASK + [d] && Occurs(ab, [d], MASK + [d])
  {
    var text := [c, d];
    assert BoundedAt(ab, [c], text, 0);
    assert forall p: nat :: p >= 1 ==> !BoundedAt(ab, [c], text, p);
    MaskOnce(ab, [c], text, 0);
    assert text[..0] + MASK + text[1..] == MASK + [d];
    assert forall p: nat :: !BoundedAt(ab, [d], text, p);
    NoMatchBeyond(ab, [d], text, 0);
    FoundIffOccurs(ab, [c], text);
    assert [a, b][..1] == [a] && [a][..0] == [];
    assert MaskAll(ab, [], text) == text;
    assert MaskAll(ab, [a], text) == MASK + [d];
    assert BoundedAt(ab, [d], MASK + [d], 4);
  }

  /** One more word masks what is there so far exactly when it occurs in the original text. */
  lemma MaskAllOneMore(ab: Alphabet, dictionary: seq<CompiledWord>, word: CompiledWord, text: string)
    requires word.literal != ""
    ensures MaskAll(ab, [], text) == text
    ensures MaskAll(ab, dictionary + [word], text) ==
      if exists p :: 0 <= p <= |text| && BoundedAt(ab, word.literal, text, p)
      then Mask(ab, word.literal, MaskAll(ab, dictionary, text)) else MaskAll(ab, dictionary, text)
  {
    FoundIffOccurs(ab, word.literal, text);
    assert (dictionary + [word])[..|dictionary|] == dictionary;
  }

  /** The same guarantee in terms of folded characters alone: for words without the mask character
      that begin and end with a letter or number, wherever the folded masked text still shows a
      dictionary word, a letter or number stands next to it. */
  lemma ScanLeavesNoWord(ab: Alphabet, dictionary: seq<CompiledWord>, text: string, w: CompiledWord, p: nat)
    requires !ab.letterOrNumber(ab.fold('*')) && w in dictionary
    requires forall v :: v in dictionary ==>
      && v.literal != "" && (forall i :: 0 <= i < |v.literal| ==> ab.fold(v.literal[i]) != ab.fold('*'))
      && ab.letterOrNumber(ab.fold(v.literal[0])) && ab.letterOrNumber(ab.fold(v.literal[|v.literal| - 1]))
    ensures var masked, n := Folded(ab, MaskAll(ab, dictionary, text)), |w.literal|;
      p + n <= |masked| && masked[p..p + n] == Folded(ab, w.literal) ==>
        (p > 0 && ab.letterOrNumber(masked[p - 1])) || (p + n < |masked| && ab.letterOrNumber(masked[p + n]))
  {
    assert Uniform(ab, dictionary, true);
    MaskedTextIsClean(ab, dictionary, text, true, w);
    BoundedExact(ab, w.literal, MaskAll(ab, dictionary, text), p);
  }

  lemma {:induction false} MaskAllOfClean(ab: Alphabet, dictionary: seq<CompiledWord>, text: string)
    requires forall w :: w in dictionary ==> Matches(ab, w.literal, text, 0) == []
    ensures MaskAll(ab, dictionary, text) == text
    decreases |dictionary|
  {
    if dictionary == [] {
    } else {
      MaskAllOfClean(ab, dictionary[..|dictionary| - 1], text);
    }
  }

  /** Scanning the masked text again finds nothing and changes nothing. */
  lemma MaskAllIdempotent(ab: Alphabet, dictionary: seq<CompiledWord>, text: string, b: bool)
    requires !ab.IsWordChar('*') && Uniform(ab, dictionary, b)
    ensures forall w :: w in dictionary ==> Matches(ab, w.literal, MaskAll(ab, dictionary, text), 0) == []
    ensures MaskAll(ab, dictionary, MaskAll(ab, dictionary, text)) == MaskAll(ab, dictionary, text)
  {
    var masked := MaskAll(ab, dictionary, text);
    forall w | w in dictionary ensures Matches(ab, w.literal, masked, 0) == [] {
      MaskedTextIsClean(ab, dictionary, text, b, w);
      FoundIffOccurs(ab, w.literal, masked);
    }
    MaskAllOfClean(ab, dictionary, masked);
  }

  /** Word `k` gives the verdict: it matches, and it is the first of the highest severity that does. */
  predicate Decides(ab: Alphabet, dictionary: seq<CompiledWord>, text: string, k: nat) {
    && k < |dictionary| && Matches(ab, dictionary[k].literal, text, 0) != []
    && (forall j :: 0 <= j < |dictionary| && Matches(ab, dictionary[j].literal, text, 0) != [] ==>
          && dictionary[j].severity.Rank() <= dictionary[k].severity.Rank()
          && (j < k ==> dictionary[j].severity.Rank() < dictionary[k].severity.Rank()))
  }

  /** `found` is the text of some match of some word. */
  predicate Matched(ab: Alphabet, dictionary: seq<CompiledWord>, text: string, found: string) {
    exists w, p ::
      && w in dictionary && p in Matches(ab, w.literal, text, 0)
      && p + |w.literal| <= |text| && found == text[p..p + |w.literal|]
  }

  /** `matches` holds exactly the texts of the matches of the dictionary. */
  ghost predicate Collected(ab: Alphabet, dictionary: seq<CompiledWord>, text: string, matches: seq<string>) {
    Distinct(matches) && forall m :: m in matches <==> Matched(ab, dictionary, text, m)
  }

  ghost predicate TextAt(text: string, n: nat, found: seq<nat>, m: string) {
    exists p: nat :: p in found && p + n <= |text| && m == text[p..p + n]
  }

  lemma TextAtStep(text: string, n: nat, found: seq<nat>, p: nat)
    requires p + n <= |text|
    ensures forall t :: TextAt(text, n, found + [p], t) <==> TextAt(text, n, found, t) || t == text[p..p + n]
  {
    assert p in found + [p] && forall k: nat :: k in found ==> k in found + [p];
  }

  lemma CollectedStep(ab: Alphabet, dictionary: seq<CompiledWord>, word: CompiledWord, text: string,
                      matches: seq<string>, more: seq<string>)
    requires Collected(ab, dictionary, text, matches) && Distinct(more)
    requires forall m :: m in more <==>
      m in matches || TextAt(text, |word.literal|, Matches(ab, word.literal, text, 0), m)
    ensures Collected(ab, dictionary + [word], text, more)
  {
    assert forall w :: w in dictionary + [word] <==> w in dictionary || w == word;
    forall m ensures m in more <==> Matched(ab, dictionary + [word], text, m) {
      if Matched(ab, dictionary + [word], text, m) {
        var w, p :| w in dictionary + [word] && p in Matches(ab, w.literal, text, 0) && p + |w.literal| <= |text|
          && m == text[p..p + |w.literal|];
        assert if w in dictionary then Matched(ab, dictionary, text, m)
          else TextAt(text, |word.literal|, Matches(ab, word.literal, text, 0), m);
      }
      if m in matches {
        var w, p :| w in dictionary && p in Matches(ab, w.literal, text, 0) && p + |w.literal| <= |text|
          && m == text[p..p + |w.literal|];
        assert w in dictionary + [word];
      }
    }
  }

  /** `top` is the verdict of the dictionary on `text`. */
  ghost predicate Judged(ab: Alphabet, dictionary: seq<CompiledWord>, text: string, top: Option<Verdict>) {
    if top.None? then forall w :: w in dictionary ==> Matches(ab, w.literal, text, 0) == []
    else
      exists k: nat ::
        Decides(ab, dictionary, text, k) && top.value == Verdict(dictionary[k].severity, dictionary[k].action)
  }

  lemma JudgedStep(ab: Alphabet, dictionary: seq<CompiledWord>, word: CompiledWord, text: string, top: Option<Verdict>)
    requires Judged(ab, dictionary, text, top)
    ensures Judged(ab, dictionary + [word], text,
      if Matches(ab, word.literal, text, 0) != [] && (top.None? || word.severity.Rank() > top.value.severity.Rank())
      then Some(Verdict(word.severity, word.action)) else top)
  {
    var longer := dictionary + [word];
    if Matches(ab, word.literal, text, 0) != [] && (top.None? || word.severity.Rank() > top.value.severity.Rank()) {
      assert Decides(ab, longer, text, |dictionary|);
    } else if top.Some? {
      var k: nat :| Decides(ab, dictionary, text, k)
        && top.value == Verdict(dictionary[k].severity, dictionary[k].action);
      assert Decides(ab, longer, text, k);
    }
  }

  /** A word of the dictionary that occurs, with at least the given severity. */
  ghost predicate Hit(ab: Alphabet, dictionary: seq<CompiledWord>, text: string, k: nat) {
    k < |dictionary| && Matches(ab, dictionary[k].literal, text, 0) != []
  }

  /** A verdict is critical when a critical word is found, mild when only mild ones are, and takes
      the action of the first word found of its severity. */
  lemma VerdictExact(ab: Alphabet, dictionary: seq<CompiledWord>, text: string, top: Verdict)
    requires Judged(ab, dictionary, text, Some(top))
    ensures top.severity == Critical <==>
      exists k: nat :: Hit(ab, dictionary, text, k) && dictionary[k].severity == Critical
    ensures top.severity == Mild <==> forall k: nat :: Hit(ab, dictionary, text, k) ==> dictionary[k].severity == Mild
    ensures exists k: nat ::
      && Hit(ab, dictionary, text, k)
      && dictionary[k].severity == top.severity && dictionary[k].action == top.action
      && forall j: nat :: j < k && Hit(ab, dictionary, text, j) ==> dictionary[j].severity != top.severity
  {
    var k: nat :| Decides(ab, dictionary, text, k) && top == Verdict(dictionary[k].severity, dictionary[k].action);
    assert Hit(ab, dictionary, text, k);
  }

  /** The texts collected are stretches of the message that fold to a word of the dictionary. */
  lemma CollectedFolds(ab: Alphabet, dictionary: seq<CompiledWord>, text: string, matches: seq<string>, m: string)
    returns (w: CompiledWord, p: nat)
    requires Collected(ab, dictionary, text, matches) && m in matches
    ensures w in dictionary && p + |m| <= |text| && m == text[p..p + |m|]
    ensures BoundedAt(ab, w.literal, text, p) && Folded(ab, m) == Folded(ab, w.literal)
  {
    assert Matched(ab, dictionary, text, m);
    w, p :| w in dictionary && p in Matches(ab, w.literal, text, 0) && p + |w.literal| <= |text|
      && m == text[p..p + |w.literal|];
    hide BoundedAt;
    FoundFolds(ab, w.literal, text, p);
  }

  /** And every word that occurs is among them, each text once. */
  lemma CollectedAll(ab: Alphabet, dictionary: seq<CompiledWord>, text: string, matches: seq<string>, w: CompiledWord)
    returns (m: string)
    requires Collected(ab, dictionary, text, matches)
    requires w in dictionary && w.literal != "" && Occurs(ab, w.literal, text)
    ensures m in matches && Folded(ab, m) == Folded(ab, w.literal)
    ensures forall i, j :: 0 <= i < j < |matches| ==> matches[i] != matches[j]
  {
    hide BoundedAt;
    FoundIffOccurs(ab, w.literal, text);
    var p := Matches(ab, w.literal, text, 0)[0];
    FoundFolds(ab, w.literal, text, p);
    m := text[p..p + |w.literal|];
    assert Matched(ab, dictionary, text, m);
  }

  lemma FoundFolds(ab: Alphabet, word: string, text: string, p: nat)
    requires p in Matches(ab, word, text, 0)
    ensures p + |word| <= |text| && BoundedAt(ab, word, text, p)
    ensures Folded(ab, text[p..p + |word|]) == Folded(ab, word)
  {
    MatchesAreBounded(ab, word, text, 0);
    BoundedExact(ab, word, text, p);
    assert Folded(ab, text[p..p + |word|]) == Folded(ab, text)[p..p + |word|];
  }

  class BlockedWordService {
    const alphabet: Alphabet
    var compiled: seq<CompiledWord>

    constructor (alphabet: Alphabet)
      ensures this.alphabet == alphabet && compiled == []
    {
      this.alphabet := alphabet;
      compiled := [];
    }

    /** Compiles the literal words of the dictionary; a word whose pattern does not compile is
        skipped, which no literal is. */
    method Reload(words: seq<CompiledWord>)
      modifies this
      ensures compiled == words
    {
      var next: seq<CompiledWord> := [];
      for i := 0 to |words|
        invariant next == words[..i]
      {
        EscapeRoundTrip(words[i].literal);
        var pattern := ReadLiteral(Escape(words[i].literal));
        if pattern.Some? {
          next := next + [words[i].(literal := pattern.value)];
        }
      }
      compiled := next;
    }

    /** Adds the text of every match to the distinct texts collected so far. */
    method Collect(text: string, n: nat, found: seq<nat>, matches: seq<string>) returns (more: seq<string>)
      requires forall p :: p in found ==> p + n <= |text|
      requires Distinct(matches)
      ensures Distinct(more) && forall m :: m in more <==> m in matches || TextAt(text, n, found, m)
    {
      more := matches;
      for i := 0 to |found|
        invariant Distinct(more) && forall m :: m in more <==> m in matches || TextAt(text, n, found[..i], m)
      {
        assert found[..i + 1] == found[..i] + [found[i]];
        assert found[i] in found && found[i] in found[..i + 1];
        var m := text[found[i]..found[i] + n];
        TextAtStep(text, n, found[..i], found[i]);
        if m !in more {
          more := more + [m];
        }
      }
      assert found[..|found|] == found;
    }

    /** Scans a message: the verdict of the first word of the highest severity found, every
        distinct matched text, and the masked copy. */
    method ScanText(text: string) returns (scan: Scan)
      ensures scan.verdict.Some? <==>
        text != "" && exists w :: w in compiled && Matches(alphabet, w.literal, text, 0) != []
      ensures scan.verdict.None? ==> scan == Scan(None, [], text)
      ensures scan.verdict.Some? ==>
        && Judged(alphabet, compiled, text, scan.verdict)
        && Collected(alphabet, compiled, text, scan.matches)
        && scan.maskedText == MaskAll(alphabet, compiled, text)
    {
      if text == "" {
        return Scan(None, [], text);
      }
      var top: Option<Verdict> := None;
      var matches: seq<string> := [];
      var maskedText := text;
      for i := 0 to |compiled|
        invariant maskedText == MaskAll(alphabet, compiled[..i], text)
        invariant Judged(alphabet, compiled[..i], text, top)
        invariant Collected(alphabet, compiled[..i], text, matches)
      {
        var word := compiled[i];
        assert compiled[..i + 1] == compiled[..i] + [word];
        JudgedStep(alphabet, compiled[..i], word, text, top);
        var found := Matches(alphabet, word.literal, text, 0);
        MatchesWithin(alphabet, word.literal, text);
        ghost var before := matches;
        if found != [] {
          matches := Collect(text, |word.literal|, found, matches);
          maskedText := Mask(alphabet, word.literal, maskedText);
          if top.None? || word.severity.Rank() > top.value.severity.Rank() {
            top := Some(Verdict(word.severity, word.action));
          }
        }
        CollectedStep(alphabet, compiled[..i], word, text, before, matches);
      }
      assert compiled[..|compiled|] == compiled;
      if top.None? {
        return Scan(None, [], text);
      }
      return Scan(top, matches, maskedText);
    }
  }
}
