/** Suffix stripping to a fixpoint (`stem`). */
module Stemmer {
  const SUFFIX_ORDER: seq<string> := ["tion", "ment", "ness", "ing", "est", "er", "ed", "ly", "s"]
  const MIN_STEM_LENGTH := 3

  predicate EndsWith(word: string, suffix: string) {
    |suffix| <= |word| && word[|word| - |suffix|..] == suffix
  }

  predicate Strippable(word: string, suffix: string) {
    EndsWith(word, suffix) && |word| - |suffix| >= MIN_STEM_LENGTH
  }

  /** The word without the first of the suffixes that can be stripped. */
  function StripFirst(word: string, suffixes: seq<string>): (r: string)
    ensures r <= word && |r| >= if |word| < MIN_STEM_LENGTH then |word| else MIN_STEM_LENGTH
  {
    if suffixes == [] then word
    else if Strippable(word, suffixes[0]) then word[..|word| - |suffixes[0]|]
    else StripFirst(word, suffixes[1..])
  }

  /** A round strips at most one suffix. */
  function Round(word: string): string {
    StripFirst(word, SUFFIX_ORDER)
  }

  function Stem(word: string): string
    decreases |word|
  {
    if |Round(word)| < |word| then Stem(Round(word)) else word
  }

  method FindStrip(word: string) returns (r: string)
    ensures r == Round(word)
  {
    var i := 0;
    while i < |SUFFIX_ORDER|
      invariant 0 <= i <= |SUFFIX_ORDER| && StripFirst(word, SUFFIX_ORDER) == StripFirst(word, SUFFIX_ORDER[i..])
    {
      if EndsWith(word, SUFFIX_ORDER[i]) && |word| - |SUFFIX_ORDER[i]| >= MIN_STEM_LENGTH {
        return word[..|word| - |SUFFIX_ORDER[i]|];
      }
      assert SUFFIX_ORDER[i..][1..] == SUFFIX_ORDER[i + 1..];
      i := i + 1;
    }
    r := word;
  }

  method StemWord(word: string) returns (r: string)
    ensures r == Stem(word)
  {
    r := word;
    var prev := "";
    while r != prev
      invariant Stem(r) == Stem(word) && (r == prev ==> Round(r) == r)
      decreases |r|, r != prev
    {
      prev := r;
      r := FindStrip(r);
    }
  }

  /** The stem is a prefix of at least three letters (or the whole word) that no suffix shortens. */
  lemma {:induction false} StemIsFixedPrefix(word: string)
    ensures Stem(word) <= word && Round(Stem(word)) == Stem(word)
    ensures |Stem(word)| >= if |word| < MIN_STEM_LENGTH then |word| else MIN_STEM_LENGTH
    decreases |word|
  {
    if |Round(word)| < |word| {
      StemIsFixedPrefix(Round(word));
    } else {
      assert Round(word) == word;
    }
  }

  /** Where the search for a suffix ends: at the first that leaves three letters, which it strips. */
  lemma {:induction false} StripFirstIff(word: string, suffixes: seq<string>)
    requires forall i :: 0 <= i < |suffixes| ==> suffixes[i] != []
    ensures StripFirst(word, suffixes) == word <==> forall i :: 0 <= i < |suffixes| ==> !Strippable(word, suffixes[i])
    ensures forall i :: 0 <= i < |suffixes| && Strippable(word, suffixes[i])
                          && (forall j :: 0 <= j < i ==> !Strippable(word, suffixes[j])) ==>
                          word == StripFirst(word, suffixes) + suffixes[i]
  {
    if suffixes != [] {
      var rest := suffixes[1..];
      StripFirstIff(word, rest);
      if Strippable(word, suffixes[0]) {
        assert word == word[..|word| - |suffixes[0]|] + suffixes[0];
      } else {
        assert forall i :: 0 < i < |suffixes| ==> suffixes[i] == rest[i - 1];
        forall i | 0 <= i < |suffixes| && Strippable(word, suffixes[i]) && (forall j :: 0 <= j < i ==> !Strippable(word, suffixes[j]))
          ensures word == StripFirst(word, rest) + suffixes[i]
        {
          assert rest[i - 1] == suffixes[i] && forall j :: 0 <= j < i - 1 ==> rest[j] == suffixes[j + 1];
        }
      }
    }
  }

  /** A round strips the first of the nine suffixes, in their order, that the word ends in and that leaves at
      least three letters; nothing when there is none. */
  lemma RoundIff(word: string)
    ensures var suffixes := ["tion", "ment", "ness", "ing", "est", "er", "ed", "ly", "s"];
            && (Round(word) == word <==>
                  forall i :: 0 <= i < |suffixes| ==> |word| < |suffixes[i]| + 3 || word[|word| - |suffixes[i]|..] != suffixes[i])
            && forall i :: 0 <= i < |suffixes| && |word| >= |suffixes[i]| + 3 && word[|word| - |suffixes[i]|..] == suffixes[i]
                           && (forall j :: 0 <= j < i ==> |word| < |suffixes[j]| + 3 || word[|word| - |suffixes[j]|..] != suffixes[j]) ==>
                             word == Round(word) + suffixes[i]
  {
    var suffixes: seq<string> := ["tion", "ment", "ness", "ing", "est", "er", "ed", "ly", "s"];
    assert forall i :: 0 <= i < |suffixes| ==>
             (Strippable(word, suffixes[i]) <==> |word| >= |suffixes[i]| + 3 && word[|word| - |suffixes[i]|..] == suffixes[i]);
    StripFirstIff(word, suffixes);
    hide StripFirst, Strippable;
  }

  lemma StemIsIdempotent(word: string)
    ensures Stem(Stem(word)) == Stem(word)
  {
    StemIsFixedPrefix(word);
  }

  // ---------------------------------------------------------------------------------------------
  // Plurals
  // ---------------------------------------------------------------------------------------------

  lemma OtherLastLetter(word: string, suffix: string)
    requires word != [] && suffix != [] && word[|word| - 1] != suffix[|suffix| - 1]
    ensures !EndsWith(word, suffix)
  {
    assert |suffix| <= |word| ==> word[|word| - |suffix|..][|suffix| - 1] == word[|word| - 1];
  }

  lemma {:induction false} SkipUnstrippable(word: string, skipped: seq<string>, rest: seq<string>)
    requires forall i :: 0 <= i < |skipped| ==> !Strippable(word, skipped[i])
    ensures StripFirst(word, skipped + rest) == StripFirst(word, rest)
  {
    if skipped == [] {
      assert skipped + rest == rest;
    } else {
      assert (skipped + rest)[1..] == skipped[1..] + rest;
      SkipUnstrippable(word, skipped[1..], rest);
    }
  }

  /** Of a word in -s only "ness" and "s" can be stripped. */
  lemma RoundOfPlural(word: string)
    requires word != [] && word[|word| - 1] == 's'
    ensures Round(word) == if Strippable(word, "ness") then word[..|word| - 4]
                           else if |word| > MIN_STEM_LENGTH then word[..|word| - 1]
                           else word
  {
    var first, second: seq<string> := ["tion", "ment"], ["ing", "est", "er", "ed", "ly"];
    OtherLastLetter(word, "tion");
    OtherLastLetter(word, "ment");
    OtherLastLetter(word, "ing");
    OtherLastLetter(word, "est");
    OtherLastLetter(word, "er");
    OtherLastLetter(word, "ed");
    OtherLastLetter(word, "ly");
    assert SUFFIX_ORDER == first + (["ness"] + (second + ["s"]));
    SkipUnstrippable(word, first, ["ness"] + (second + ["s"]));
    assert (["ness"] + (second + ["s"]))[1..] == second + ["s"];
    SkipUnstrippable(word, second, ["s"]);
    assert word[|word| - 1..] == "s" && ["s"][1..] == [];
  }

  lemma NoSuffixInE(word: string)
    requires word != [] && word[|word| - 1] == 'e'
    ensures forall i :: 0 <= i < |SUFFIX_ORDER| ==> !EndsWith(word, SUFFIX_ORDER[i])
  {
    hide EndsWith;
    OtherLastLetter(word, "tion");
    OtherLastLetter(word, "ment");
    OtherLastLetter(word, "ness");
    OtherLastLetter(word, "ing");
    OtherLastLetter(word, "est");
    OtherLastLetter(word, "er");
    OtherLastLetter(word, "ed");
    OtherLastLetter(word, "ly");
    OtherLastLetter(word, "s");
  }

  /** A word in -e is its own stem. */
  lemma EndsInE(word: string)
    requires word != [] && word[|word| - 1] == 'e'
    ensures Stem(word) == word
  {
    NoSuffixInE(word);
    hide EndsWith, StripFirst;
    SkipUnstrippable(word, SUFFIX_ORDER, []);
    assert SUFFIX_ORDER + [] == SUFFIX_ORDER;
    NothingToStrip(word);
  }

  lemma NothingToStrip(word: string)
    ensures StripFirst(word, []) == word
  {
  }

  lemma PluralInNess(word: string)
    requires |word| >= 3
    ensures EndsWith(word + "s", "ness") <==> EndsWith(word, "nes")
  {
    assert (word + "s")[|word| - 3..] == word[|word| - 3..] + "s";
    assert "nes" + "s" == "ness" && "ness"[..3] == "nes" && (word[|word| - 3..] + "s")[..3] == word[|word| - 3..];
  }

  /** "...nes" loses its "s", and is done. */
  lemma StemOfNes(word: string)
    requires |word| >= 6 && EndsWith(word, "nes")
    ensures |Stem(word)| == |word| - 1
  {
    assert word[|word| - 1] == word[|word| - 3..][2] && word[|word| - 2] == word[|word| - 3..][1];
    assert word[|word| - 3] == word[|word| - 3..][0];
    assert !EndsWith(word, "ness") by {
      assert word[|word| - 4..][1] == word[|word| - 3] && "ness"[1] == 'e';
    }
    RoundOfPlural(word);
    EndsInE(word[..|word| - 1]);
  }

  /** A word and its plural in -s have the same stem exactly when the word has at least three letters
      and is not one of six or more that ends in "nes", whose plural loses "ness" in one round. */
  lemma PluralHasSameStemIff(word: string)
    ensures Stem(word + "s") == Stem(word) <==> |word| >= MIN_STEM_LENGTH && !(|word| >= 6 && EndsWith(word, "nes"))
  {
    var plural := word + "s";
    RoundOfPlural(plural);
    assert plural[..|word|] == word;
    hide Round, EndsWith;
    if |word| < MIN_STEM_LENGTH {
      assert Stem(plural) == plural;
      StemIsFixedPrefix(word);
    } else {
      PluralInNess(word);
      if |word| >= 6 && EndsWith(word, "nes") {
        var root := plural[..|plural| - 4];
        StemIsFixedPrefix(root);
        StemOfNes(word);
      }
    }
  }
}
