/**
 * The phrase-to-sign mapping run on the robotic hand (sign2talk.py): text
 * normalisation, the catalogue of action files and the expansion of a
 * phrase into the action files to play, whole-word signs first and
 * letter-by-letter spelling otherwise.
 */
module Sign2Talk {
  import opened PyStr
  import opened Seqs

  /** Extension of the action-group files. */
  const Extension := ".d6a"
  /** Key prefix of a whole-word sign, as in `sign_hola`. */
  const WordPrefix := "sign_"
  /** Key prefix of a letter sign, as in `letter_h`. */
  const LetterPrefix := "letter_"

  // -----------------------------------------------------------------------
  // normalize_text
  // -----------------------------------------------------------------------

  /** `normalize_text`: lower-case, drop `string.punctuation`, strip the ends. */
  function Normalize(text: string): (r: string)
    ensures forall i :: 0 <= i < |r| ==> !IsUpper(r[i]) && !IsPunct(r[i])
    ensures r == [] || (!IsSpace(r[0]) && !IsSpace(r[|r| - 1]))
  {
    var lowered := LowerStr(text);
    var cleaned := RemovePunct(lowered);
    RemovePunctKeeps(lowered, c => !IsUpper(c));
    StripKeeps(cleaned, c => !IsUpper(c) && !IsPunct(c));
    Strip(cleaned)
  }

  /** A normalised text: no upper case, no punctuation, no blank at either end. */
  predicate IsNormal(t: string) {
    && (forall i :: 0 <= i < |t| ==> !IsUpper(t[i]) && !IsPunct(t[i]))
    && (t == [] || (!IsSpace(t[0]) && !IsSpace(t[|t| - 1])))
  }

  /** `normalize_text` leaves a normalised text as it is. */
  lemma NormalizeFixes(t: string)
    requires IsNormal(t)
    ensures Normalize(t) == t
  {
    LowerStrIdentity(t);
    RemovePunctIdentity(t);
    StripIdentity(t);
  }

  /** Normalising twice is normalising once. */
  lemma NormalizeIdempotent(text: string)
    ensures Normalize(Normalize(text)) == Normalize(text)
  {
    NormalizeFixes(Normalize(text));
  }

  // -----------------------------------------------------------------------
  // load_signs
  // -----------------------------------------------------------------------

  predicate EndsWith(s: string, suffix: string) {
    |suffix| <= |s| && s[|s| - |suffix|..] == suffix
  }

  /** A catalogue file: its name ends in `.d6a`. */
  predicate IsSignFile(name: string) {
    EndsWith(name, Extension)
  }

  /**
   * `os.path.splitext(name)[0]` for a name ending in `.d6a` and without `/`,
   * as `os.listdir` gives it: the name without its extension, unless every
   * character before the final dot is itself a dot (as in `.d6a`), in which
   * case Python treats the dot as part of a hidden file's name and keeps the
   * whole name.
   */
  function Stem(name: string): (r: string)
    requires IsSignFile(name)
    ensures r == name || name == r + Extension
    ensures (exists i :: 0 <= i < |name| - 4 && name[i] != '.') ==> name == r + Extension
    ensures (forall i :: 0 <= i < |name| - 4 ==> name[i] == '.') ==> r == name
  {
    if exists i :: 0 <= i < |name| - 4 && name[i] != '.' then name[..|name| - 4] else name
  }

  /** `os.path.join(path, name)` on POSIX paths. */
  function JoinPath(path: string, name: string): (r: string)
    ensures EndsWith(r, name)
    ensures |name| > 0 && name[0] == '/' ==> r == name
    ensures !(|name| > 0 && name[0] == '/') ==> r == path + name || r == path + "/" + name
    ensures !(|name| > 0 && name[0] == '/') && path != [] && path[|path| - 1] != '/' ==> r == path + "/" + name
    ensures !(|name| > 0 && name[0] == '/') && (path == [] || path[|path| - 1] == '/') ==> r == path + name
  {
    if |name| > 0 && name[0] == '/' then name
    else if path == [] || path[|path| - 1] == '/' then path + name
    else path + "/" + name
  }

  /**
   * `load_signs` over the directory listing `names`, in listing order: each
   * `.d6a` file is entered under its stem with its joined path; a later file
   * with the same stem replaces an earlier one, as in the dict comprehension.
   */
  function LoadSigns(path: string, names: seq<string>): (signs: map<string, string>)
    ensures forall k :: k in signs ==> LastSignFile(names, k) >= 0
  {
    if names == [] then map[]
    else
      var rest := LoadSigns(path, names[..|names| - 1]);
      var f := names[|names| - 1];
      if IsSignFile(f) then rest[Stem(f) := JoinPath(path, f)] else rest
  }

  /**
   * Where the entry for `k` comes from, searching the listing backwards: the
   * index of the last `.d6a` file whose stem is `k`, or -1 when there is none.
   */
  function LastSignFile(names: seq<string>, k: string): (i: int)
    ensures -1 <= i < |names|
    ensures i >= 0 ==> IsSignFile(names[i]) && Stem(names[i]) == k
    ensures forall j :: i < j < |names| ==> !(IsSignFile(names[j]) && Stem(names[j]) == k)
  {
    if names == [] then -1
    else if IsSignFile(names[|names| - 1]) && Stem(names[|names| - 1]) == k then |names| - 1
    else LastSignFile(names[..|names| - 1], k)
  }

  /**
   * The catalogue holds exactly the stems of the `.d6a` files of the listing,
   * each mapped to the joined path of the last file with that stem.
   */
  lemma {:induction false} LoadSignsEntries(path: string, names: seq<string>, k: string)
    ensures k in LoadSigns(path, names) <==> LastSignFile(names, k) >= 0
    ensures k in LoadSigns(path, names) ==>
      LoadSigns(path, names)[k] == JoinPath(path, names[LastSignFile(names, k)])
    decreases |names|
  {
    if names != [] {
      LoadSignsEntries(path, names[..|names| - 1], k);
    }
  }

  /** A name that is not a `.d6a` file never yields an entry. */
  lemma LoadSignsIgnores(path: string, names: seq<string>, other: string)
    requires !IsSignFile(other)
    ensures LoadSigns(path, names + [other]) == LoadSigns(path, names)
  {
    DropLastOfConcat(names, [other]);
    SingletonDropLast(other);
    AppendEmpty(names);
  }

  // -----------------------------------------------------------------------
  // phrase_to_signs
  // -----------------------------------------------------------------------

  /** The words `phrase_to_signs` walks through: `normalize_text(phrase).split()`. */
  function Words(phrase: string): seq<string> {
    Split(Normalize(phrase))
  }

  /** What one letter contributes when a word is spelled: its file, or nothing. */
  function LetterSign(c: char, signs: map<string, string>): seq<string> {
    var key := LetterPrefix + [c];
    if key in signs then [signs[key]] else []
  }

  /** A word spelled out, left to right, letters without a file skipped. */
  function Spell(w: string, signs: map<string, string>): seq<string> {
    if w == [] then [] else Spell(w[..|w| - 1], signs) + LetterSign(w[|w| - 1], signs)
  }

  /** What one word contributes: its whole-word sign when there is one, its spelling otherwise. */
  function WordSigns(w: string, signs: map<string, string>): seq<string> {
    var key := WordPrefix + w;
    if key in signs then [signs[key]] else Spell(w, signs)
  }

  function WordsSigns(ws: seq<string>, signs: map<string, string>): seq<string> {
    if ws == [] then [] else WordsSigns(ws[..|ws| - 1], signs) + WordSigns(ws[|ws| - 1], signs)
  }

  /** The value of `phrase_to_signs(phrase, signs)`. */
  function PhraseSigns(phrase: string, signs: map<string, string>): seq<string> {
    WordsSigns(Words(phrase), signs)
  }

  /** `phrase_to_signs`: the loop over the words, whole-word sign first. */
  method PhraseToSigns(phrase: string, signs: map<string, string>) returns (sequence: seq<string>)
    ensures sequence == PhraseSigns(phrase, signs)
  {
    sequence := [];
    var words := Words(phrase);
    var i := 0;
    while i < |words|
      invariant 0 <= i <= |words|
      invariant sequence == WordsSigns(words[..i], signs)
    {
      var word := words[i];
      var fullKey := WordPrefix + word;
      WordsSignsStep(words, i, signs);
      if fullKey in signs {
        sequence := sequence + [signs[fullKey]];
      } else {
        sequence := SpellInto(sequence, word, signs);
      }
      i := i + 1;
    }
    TakeAll(words);
  }

  lemma WordsSignsStep(ws: seq<string>, i: nat, signs: map<string, string>)
    requires i < |ws|
    ensures WordsSigns(ws[..i + 1], signs) == WordsSigns(ws[..i], signs) + WordSigns(ws[i], signs)
  {
    TakeGrow(ws, i);
  }

  /** The inner loop of `phrase_to_signs`: the letters of `word` appended to `sequence`. */
  method SpellInto(sequence: seq<string>, word: string, signs: map<string, string>) returns (r: seq<string>)
    ensures r == sequence + Spell(word, signs)
  {
    r := sequence;
    var j := 0;
    while j < |word|
      invariant 0 <= j <= |word|
      invariant r == sequence + Spell(word[..j], signs)
    {
      var letterKey := LetterPrefix + [word[j]];
      if letterKey in signs {
        r := r + [signs[letterKey]];
      }
      TakeGrow(word, j);
      AppendAssoc(sequence, Spell(word[..j], signs), LetterSign(word[j], signs));
      j := j + 1;
    }
    TakeAll(word);
  }

  // -----------------------------------------------------------------------
  // Properties of the mapping
  // -----------------------------------------------------------------------

  /** Spelling is letter by letter: the spelling of `x + y` is that of `x` then that of `y`. */
  lemma {:induction false} SpellConcat(x: string, y: string, signs: map<string, string>)
    ensures Spell(x + y, signs) == Spell(x, signs) + Spell(y, signs)
    decreases |y|
  {
    if y == [] {
      assert x + y == x;
    } else {
      var y' := y[..|y| - 1];
      DropLastOfConcat(x, y);
      SpellConcat(x, y', signs);
      AppendAssoc(Spell(x, signs), Spell(y', signs), LetterSign(y[|y| - 1], signs));
    }
  }

  /** A single letter is spelled by its own file, or by nothing when it has none. */
  lemma SpellLetter(c: char, signs: map<string, string>)
    ensures Spell([c], signs) == LetterSign(c, signs)
  {
    assert [c][..0] == [];
  }

  lemma {:induction false} WordsSignsConcat(a: seq<string>, b: seq<string>, signs: map<string, string>)
    ensures WordsSigns(a + b, signs) == WordsSigns(a, signs) + WordsSigns(b, signs)
    decreases |b|
  {
    if b == [] {
      AppendEmpty(a);
      AppendEmpty(WordsSigns(a, signs));
    } else {
      var b' := b[..|b| - 1];
      DropLastOfConcat(a, b);
      WordsSignsConcat(a, b', signs);
      AppendAssoc(WordsSigns(a, signs), WordsSigns(b', signs), WordSigns(b[|b| - 1], signs));
    }
  }

  lemma {:induction false} SpellLength(w: string, signs: map<string, string>)
    ensures |Spell(w, signs)| <= |w|
    ensures forall k :: 0 <= k < |Spell(w, signs)| ==> Spell(w, signs)[k] in signs.Values
    decreases |w|
  {
    if w != [] {
      SpellLength(w[..|w| - 1], signs);
    }
  }

  lemma {:induction false} WordsSignsBounds(ws: seq<string>, signs: map<string, string>)
    requires forall k :: 0 <= k < |ws| ==> ws[k] != []
    ensures |WordsSigns(ws, signs)| <= TotalLength(ws)
    ensures forall k :: 0 <= k < |WordsSigns(ws, signs)| ==> WordsSigns(ws, signs)[k] in signs.Values
    decreases |ws|
  {
    if ws != [] {
      var init, w := ws[..|ws| - 1], ws[|ws| - 1];
      WordsSignsBounds(init, signs);
      SpellLength(w, signs);
      TotalLengthSnoc(init, w);
      SplitLast(ws);
    }
  }

  /** Every word of a phrase is non-empty and free of blanks. */
  lemma WordsAreWords(phrase: string)
    ensures forall k :: 0 <= k < |Words(phrase)| ==> IsWord(Words(phrase)[k])
  {
    SplitWords(Normalize(phrase));
  }

  /** Every file `phrase_to_signs` returns is a value of the catalogue. */
  lemma PhraseSignsAreEntries(phrase: string, signs: map<string, string>)
    ensures forall k :: 0 <= k < |PhraseSigns(phrase, signs)| ==> PhraseSigns(phrase, signs)[k] in signs.Values
  {
    WordsAreWords(phrase);
    WordsSignsBounds(Words(phrase), signs);
  }

  /** At most one file per non-blank character of the normalised phrase. */
  lemma PhraseSignsLength(phrase: string, signs: map<string, string>)
    ensures |PhraseSigns(phrase, signs)| <= NonSpaceCount(Normalize(phrase))
  {
    WordsAreWords(phrase);
    WordsSignsBounds(Words(phrase), signs);
    SplitKeepsNonSpace(Normalize(phrase));
  }

  /** Normalisation distributes over a blank: the words of `a + " " + b` are those of `a` then `b`. */
  lemma WordsAtSpace(a: string, b: string)
    ensures Words(a + " " + b) == Words(a) + Words(b)
  {
    var la, lb := LowerStr(a), LowerStr(b);
    LowerStrConcat(a + " ", b);
    LowerStrConcat(a, " ");
    var pa, pb := RemovePunct(la), RemovePunct(lb);
    RemovePunctConcat(la + " ", lb);
    RemovePunctConcat(la, " ");
    assert LowerStr(" ") == " ";
    assert RemovePunct(" ") == " ";
    var joined := pa + " " + pb;
    assert RemovePunct(LowerStr(a + " " + b)) == joined;
    SplitStrip(joined);
    SplitStrip(pa);
    SplitStrip(pb);
    assert " " == [' '];
    AppendAssoc(pa, [' '], pb);
    SplitAtSpace(pa, ' ', pb);
  }

  /** `phrase_to_signs` is word-compositional. */
  lemma PhraseSignsAtSpace(a: string, b: string, signs: map<string, string>)
    ensures PhraseSigns(a + " " + b, signs) == PhraseSigns(a, signs) + PhraseSigns(b, signs)
  {
    WordsAtSpace(a, b);
    WordsSignsConcat(Words(a), Words(b), signs);
  }

  /** A phrase of blanks and punctuation only yields no files. */
  lemma PhraseSignsBlank(phrase: string, signs: map<string, string>)
    requires forall i :: 0 <= i < |phrase| ==> IsSpace(phrase[i]) || IsPunct(phrase[i])
    ensures PhraseSigns(phrase, signs) == []
  {
    var lowered := LowerStr(phrase);
    forall i | 0 <= i < |lowered| ensures IsSpace(lowered[i]) || IsPunct(lowered[i]) {
      LowerStrAt(phrase, i);
      LowerKeepsKind(phrase[i]);
    }
    var cleaned := RemovePunct(lowered);
    RemovePunctKeeps(lowered, c => IsSpace(c) || IsPunct(c));
    StripKeeps(cleaned, c => IsSpace(c));
    SplitBlank(Normalize(phrase));
  }

  lemma WordsSignsSingle(w: string, signs: map<string, string>)
    ensures WordsSigns([w], signs) == WordSigns(w, signs)
  {
    SingletonDropLast(w);
    AppendEmpty(WordSigns(w, signs));
  }

  /** A normalised word: non-empty, no blanks, no punctuation, no upper case. */
  predicate IsNormalWord(w: string) {
    w != [] && forall i :: 0 <= i < |w| ==> !IsSpace(w[i]) && !IsPunct(w[i]) && !IsUpper(w[i])
  }

  /** A normalised word is its own only word. */
  lemma NormalWord(w: string)
    requires IsNormalWord(w)
    ensures Words(w) == [w]
  {
    LowerStrIdentity(w);
    RemovePunctIdentity(w);
    StripIdentity(w);
    SplitOneWord(w);
  }

  /**
   * A word between two phrases contributes, in place, the one file of its
   * whole-word sign when the catalogue has `sign_<word>`, and its spelling
   * otherwise.
   */
  lemma WordInContext(a: string, w: string, b: string, signs: map<string, string>)
    requires IsNormalWord(w)
    ensures WordPrefix + w in signs ==>
      PhraseSigns(a + " " + w + " " + b, signs) == PhraseSigns(a, signs) + [signs[WordPrefix + w]] + PhraseSigns(b, signs)
    ensures WordPrefix + w !in signs ==>
      PhraseSigns(a + " " + w + " " + b, signs) == PhraseSigns(a, signs) + Spell(w, signs) + PhraseSigns(b, signs)
  {
    WordBetween(a, w, b, signs);
  }

  lemma WordBetween(a: string, w: string, b: string, signs: map<string, string>)
    requires IsNormalWord(w)
    ensures PhraseSigns(a + " " + w + " " + b, signs) == PhraseSigns(a, signs) + WordSigns(w, signs) + PhraseSigns(b, signs)
  {
    NormalWord(w);
    var a' := a + " ";
    AppendAssoc(a', w, " ");
    AppendAssoc(a', w + " ", b);
    PhraseSignsAtSpace(a, w + " " + b, signs);
    PhraseSignsAtSpace(w, b, signs);
    WordsSignsSingle(w, signs);
    AppendAssoc(PhraseSigns(a, signs), WordSigns(w, signs), PhraseSigns(b, signs));
  }
}
