/**
 * The stored records and the validation of a chirp's text
 * (internal/entities/chirp.go, internal/entities/token.go).
 */
module Entities {
  import opened Base
  import opened Strings

  /** A post; `userId` is the account that wrote it. */
  datatype Chirp = Chirp(id: int, body: string, userId: int)

  /** An account; `password` holds the bcrypt digest, never the plain text. */
  datatype User = User(id: int, email: string, password: string, isChirpyRed: bool)

  /** A refresh credential; `expiresAt` is in whole seconds. */
  datatype RefreshToken = RefreshToken(userId: int, token: string, expiresAt: int)

  const MaxChirpLength: nat := 140
  const Profanities: seq<string> := ["kerfuffle", "sharbert", "fornax"]
  const Mask: string := "****"

  /** One space-separated word of a chirp, masked when it is a banned word in any case. */
  function Censor(word: string): string
  {
    if ToLower(word) in Profanities then Mask else word
  }

  function CensorAll(words: seq<string>): seq<string>
  {
    seq(|words|, i requires 0 <= i < |words| => Censor(words[i]))
  }

  /** The text a valid chirp is stored with. */
  function Cleaned(text: string): string
  {
    Join(CensorAll(Split(text, ' ')), ' ')
  }

  /**
   * `ValidateChirp`: over 140 bytes is an error; otherwise each word is
   * masked in place in the split slice and the words are joined again.
   */
  method ValidateChirp(text: string) returns (r: Result<string>)
    ensures |text| > MaxChirpLength ==> r == Failure(ErrChirpTooLong)
    ensures |text| <= MaxChirpLength ==> r == Success(Cleaned(text))
  {
    if |text| > MaxChirpLength {
      return Failure(ErrChirpTooLong);
    }
    var split := Split(text, ' ');
    var words := new string[|split|](i requires 0 <= i < |split| => split[i]);
    for i := 0 to words.Length
      invariant forall j | 0 <= j < i :: words[j] == Censor(split[j])
      invariant forall j | i <= j < words.Length :: words[j] == split[j]
    {
      if ToLower(words[i]) in Profanities {
        words[i] := Mask;
      }
    }
    assert words[..] == CensorAll(split);
    return Success(Join(words[..], ' '));
  }

  lemma CensorNoSpace(word: string)
    requires ' ' !in word
    ensures ' ' !in Censor(word)
  {
  }

  /**
   * The cleaned text has as many space-separated segments as the input; a
   * segment is "****" exactly when its lowercase form is a banned word, and
   * is copied unchanged (case included) otherwise.
   */
  lemma CleanedSegments(text: string)
    ensures var words := Split(text, ' ');
            && |Split(Cleaned(text), ' ')| == |words|
            && forall i | 0 <= i < |words| ::
                 Split(Cleaned(text), ' ')[i]
                 == if ToLower(words[i]) in Profanities then Mask else words[i]
  {
    var words := Split(text, ' ');
    var censored := CensorAll(words);
    forall i | 0 <= i < |censored| ensures ' ' !in censored[i] {
      CensorNoSpace(words[i]);
    }
    SplitJoin(censored, ' ');
  }

  /** Masking never lengthens a word: every banned word is longer than the mask. */
  lemma CensorNoLonger(word: string)
    ensures |Censor(word)| <= |word|
  {
    if ToLower(word) in Profanities {
      assert |ToLower(word)| == |word|;
    }
  }

  /** The cleaned text is never longer than the input. */
  lemma CleanedNoLonger(text: string)
    ensures |Cleaned(text)| <= |text|
  {
    var words := Split(text, ' ');
    forall i | 0 <= i < |words| ensures |CensorAll(words)[i]| <= |words[i]| {
      CensorNoLonger(words[i]);
    }
    JoinNoLonger(CensorAll(words), words, ' ');
    JoinSplit(text, ' ');
  }

  /** Masking an already masked word changes nothing. */
  lemma CensorIdempotent(word: string)
    ensures Censor(Censor(word)) == Censor(word)
  {
    if ToLower(word) in Profanities {
      assert ToLower(Mask) == Mask;
    }
  }

  /** Validating a cleaned chirp succeeds and gives it back unchanged. */
  lemma CleanedIdempotent(text: string)
    requires |text| <= MaxChirpLength
    ensures |Cleaned(text)| <= MaxChirpLength
    ensures Cleaned(Cleaned(text)) == Cleaned(text)
  {
    CleanedNoLonger(text);
    var words := Split(text, ' ');
    var censored := CensorAll(words);
    forall i | 0 <= i < |censored| ensures ' ' !in censored[i] {
      CensorNoSpace(words[i]);
    }
    SplitJoin(censored, ' ');
    forall i | 0 <= i < |censored| ensures Censor(censored[i]) == censored[i] {
      CensorIdempotent(words[i]);
    }
    assert CensorAll(censored) == censored;
  }

  /**
   * A banned word is masked whatever its case; one with punctuation attached
   * is a different segment and is kept.
   */
  lemma CensorExamples()
    ensures Censor("Kerfuffle") == "****"
    ensures Censor("SHARBERT") == "****"
    ensures Censor("Fornax!") == "Fornax!"
  {
    assert ToLower("Kerfuffle") == "kerfuffle";
    assert ToLower("SHARBERT") == "sharbert";
    assert ToLower("Fornax!") == "fornax!";
  }
}
