/**
 * The Python `str` built-ins the translator relies on: `lower`, the
 * `string.punctuation` set, `isspace`, `strip`, `split()` with no argument
 * and `" ".join`.  Case mapping is modelled for ASCII and Latin-1, the
 * characters the Spanish vocabulary of the system uses.
 */
module PyStr {
  import opened Seqs

  /** `str.isspace()` for one character: the characters `strip()` and `split()` treat as blanks. */
  predicate IsSpace(c: char) {
    || c == ' '
    || ('\t' <= c <= '\r')
    || ('\U{1C}' <= c <= '\U{1F}')
    || c == '\U{85}' || c == '\U{A0}' || c == '\U{1680}'
    || ('\U{2000}' <= c <= '\U{200A}')
    || c == '\U{2028}' || c == '\U{2029}' || c == '\U{202F}' || c == '\U{205F}' || c == '\U{3000}'
  }

  /** The 32 characters of `string.punctuation`. */
  predicate IsPunct(c: char) {
    || ('!' <= c <= '/')
    || (':' <= c <= '@')
    || ('[' <= c <= '`')
    || ('{' <= c <= '~')
  }

  /** Upper-case letters of ASCII and Latin-1 (the multiplication sign U+00D7 is not a letter). */
  predicate IsUpper(c: char) {
    ('A' <= c <= 'Z') || ('\U{C0}' <= c <= '\U{DE}' && c != '\U{D7}')
  }

  /** `str.lower()` on one character. */
  function Lower(c: char): (r: char)
    ensures !IsUpper(r)
    ensures !IsUpper(c) ==> r == c
    ensures IsUpper(c) ==> r as int == c as int + 32
  {
    if IsUpper(c) then (c as int + 32) as char else c
  }

  function LowerStr(s: string): (r: string)
    ensures |r| == |s|
    ensures forall i :: 0 <= i < |r| ==> !IsUpper(r[i])
  {
    if s == [] then [] else [Lower(s[0])] + LowerStr(s[1..])
  }

  /** `s.translate(str.maketrans("", "", string.punctuation))`: every punctuation character dropped. */
  function RemovePunct(s: string): (r: string)
    ensures |r| <= |s|
    ensures forall i :: 0 <= i < |r| ==> !IsPunct(r[i])
  {
    if s == [] then []
    else if IsPunct(s[0]) then RemovePunct(s[1..])
    else [s[0]] + RemovePunct(s[1..])
  }

  /** `lstrip()`: the suffix of `s` left once the leading blanks are gone. */
  function TrimLeft(s: string): (r: string)
    ensures |r| <= |s| && r == s[|s| - |r|..]
    ensures r == [] || !IsSpace(r[0])
    ensures forall i :: 0 <= i < |s| - |r| ==> IsSpace(s[i])
  {
    if s != [] && IsSpace(s[0]) then
      var t := TrimLeft(s[1..]);
      assert s[1..][|s| - 1 - |t|..] == s[|s| - |t|..];
      assert forall i :: 1 <= i < |s| - |t| ==> s[i] == s[1..][i - 1];
      t
    else s
  }

  /** `rstrip()`: the prefix of `s` left once the trailing blanks are gone. */
  function TrimRight(s: string): (r: string)
    ensures |r| <= |s| && r == s[..|r|]
    ensures r == [] || !IsSpace(r[|r| - 1])
    ensures forall i :: |r| <= i < |s| ==> IsSpace(s[i])
  {
    if s != [] && IsSpace(s[|s| - 1]) then TrimRight(s[..|s| - 1]) else s
  }

  /** `strip()`. */
  function Strip(s: string): (r: string)
    ensures r == [] || (!IsSpace(r[0]) && !IsSpace(r[|r| - 1]))
  {
    TrimRight(TrimLeft(s))
  }

  /** Length of the run of non-blank characters at the front of `s`. */
  function WordEnd(s: string): (n: nat)
    ensures n <= |s|
    ensures forall i :: 0 <= i < n ==> !IsSpace(s[i])
    ensures n == |s| || IsSpace(s[n])
  {
    if s == [] || IsSpace(s[0]) then 0 else 1 + WordEnd(s[1..])
  }

  predicate NoSpace(w: string) {
    forall i :: 0 <= i < |w| ==> !IsSpace(w[i])
  }

  /** A word of `split()`: non-empty and without blanks. */
  predicate IsWord(w: string) {
    w != [] && NoSpace(w)
  }

  /** `split()` with no separator: the maximal runs of non-blank characters, in order. */
  function Split(s: string): (ws: seq<string>)
    ensures |ws| <= |s|
    decreases |s|
  {
    var t := TrimLeft(s);
    if t == [] then []
    else
      var n := WordEnd(t);
      [t[..n]] + Split(t[n..])
  }

  /** `" ".join(xs)`. */
  function JoinSpace(xs: seq<string>): (r: string)
    ensures xs == [] ==> r == []
    ensures |xs| == 1 ==> r == xs[0]
  {
    if xs == [] then []
    else if |xs| == 1 then xs[0]
    else JoinSpace(xs[..|xs| - 1]) + " " + xs[|xs| - 1]
  }

  /** Number of non-blank characters of `s`. */
  function NonSpaceCount(s: string): nat {
    if s == [] then 0 else (if IsSpace(s[0]) then 0 else 1) + NonSpaceCount(s[1..])
  }

  /** Sum of the lengths of a list of words. */
  function TotalLength(ws: seq<string>): nat {
    if ws == [] then 0 else |ws[0]| + TotalLength(ws[1..])
  }

  // ---------------------------------------------------------------------
  // Facts about the built-ins
  // ---------------------------------------------------------------------

  /** Lower-casing leaves blanks and punctuation as they are. */
  lemma LowerKeepsKind(c: char)
    ensures IsSpace(Lower(c)) <==> IsSpace(c)
    ensures IsPunct(Lower(c)) <==> IsPunct(c)
  {
  }

  /** Whatever holds of every character of `s` holds of every character left by `RemovePunct`. */
  lemma {:induction false} RemovePunctKeeps(s: string, P: char -> bool)
    requires forall i :: 0 <= i < |s| ==> P(s[i])
    ensures forall i :: 0 <= i < |RemovePunct(s)| ==> P(RemovePunct(s)[i])
    decreases |s|
  {
    if s != [] {
      RemovePunctKeeps(s[1..], P);
    }
  }

  lemma {:induction false} TrimLeftKeeps(s: string, P: char -> bool)
    requires forall i :: 0 <= i < |s| ==> P(s[i])
    ensures forall i :: 0 <= i < |TrimLeft(s)| ==> P(TrimLeft(s)[i])
    decreases |s|
  {
    if s != [] && IsSpace(s[0]) {
      TrimLeftKeeps(s[1..], P);
    }
  }

  lemma {:induction false} TrimRightKeeps(s: string, P: char -> bool)
    requires forall i :: 0 <= i < |s| ==> P(s[i])
    ensures forall i :: 0 <= i < |TrimRight(s)| ==> P(TrimRight(s)[i])
    decreases |s|
  {
    if s != [] && IsSpace(s[|s| - 1]) {
      TrimRightKeeps(s[..|s| - 1], P);
    }
  }

  /** Whatever holds of every character of `s` holds of every character of `Strip(s)`. */
  lemma StripKeeps(s: string, P: char -> bool)
    requires forall i :: 0 <= i < |s| ==> P(s[i])
    ensures forall i :: 0 <= i < |Strip(s)| ==> P(Strip(s)[i])
  {
    TrimLeftKeeps(s, P);
    TrimRightKeeps(TrimLeft(s), P);
  }

  lemma {:induction false} LowerStrAt(s: string, i: nat)
    requires i < |s|
    ensures LowerStr(s)[i] == Lower(s[i])
    decreases i
  {
    if i > 0 {
      LowerStrAt(s[1..], i - 1);
    }
  }

  lemma {:induction false} LowerStrConcat(a: string, b: string)
    ensures LowerStr(a + b) == LowerStr(a) + LowerStr(b)
    decreases |a|
  {
    if a == [] {
      assert a + b == b;
    } else {
      assert (a + b)[1..] == a[1..] + b;
      LowerStrConcat(a[1..], b);
    }
  }

  /** Lower-casing a string without upper-case letters changes nothing. */
  lemma {:induction false} LowerStrIdentity(s: string)
    requires forall i :: 0 <= i < |s| ==> !IsUpper(s[i])
    ensures LowerStr(s) == s
    decreases |s|
  {
    if s != [] {
      LowerStrIdentity(s[1..]);
    }
  }

  lemma {:induction false} RemovePunctConcat(a: string, b: string)
    ensures RemovePunct(a + b) == RemovePunct(a) + RemovePunct(b)
    decreases |a|
  {
    if a != [] {
      assert (a + b)[1..] == a[1..] + b;
      RemovePunctConcat(a[1..], b);
    } else {
      assert a + b == b;
    }
  }

  /** Removing punctuation from a string without punctuation changes nothing. */
  lemma {:induction false} RemovePunctIdentity(s: string)
    requires forall i :: 0 <= i < |s| ==> !IsPunct(s[i])
    ensures RemovePunct(s) == s
  {
    if s != [] {
      RemovePunctIdentity(s[1..]);
    }
  }

  /** Stripping a string that neither starts nor ends with a blank changes nothing. */
  lemma StripIdentity(s: string)
    requires s == [] || (!IsSpace(s[0]) && !IsSpace(s[|s| - 1]))
    ensures Strip(s) == s
  {
  }

  lemma {:induction false} TrimLeftConcat(x: string, z: string)
    ensures TrimLeft(x + z) == if TrimLeft(x) == [] then TrimLeft(z) else TrimLeft(x) + z
    decreases |x|
  {
    if x == [] {
      assert x + z == z;
    } else if IsSpace(x[0]) {
      assert (x + z)[1..] == x[1..] + z;
      TrimLeftConcat(x[1..], z);
    }
  }

  lemma {:induction false} WordEndConcat(t: string, z: string)
    requires z == [] || IsSpace(z[0])
    ensures WordEnd(t + z) == WordEnd(t)
    decreases |t|
  {
    if t == [] {
      assert t + z == z;
    } else if !IsSpace(t[0]) {
      assert (t + z)[1..] == t[1..] + z;
      WordEndConcat(t[1..], z);
    }
  }

  lemma TrimLeftBlankCons(c: char, y: string)
    requires IsSpace(c)
    ensures TrimLeft([c] + y) == TrimLeft(y)
  {
    assert ([c] + y)[1..] == y;
  }

  lemma SplitUnfold(s: string)
    requires TrimLeft(s) != []
    ensures Split(s) == [TrimLeft(s)[..WordEnd(TrimLeft(s))]] + Split(TrimLeft(s)[WordEnd(TrimLeft(s))..])
  {
  }

  lemma SplitSameTrim(s1: string, s2: string)
    requires TrimLeft(s1) == TrimLeft(s2)
    ensures Split(s1) == Split(s2)
  {
  }

  /** The run of non-blank characters at the front of a text that starts with one is a word. */
  lemma LeadingWord(t: string)
    requires t != [] && !IsSpace(t[0])
    ensures IsWord(t[..WordEnd(t)])
  {
    var n := WordEnd(t);
    assert n > 0;
    assert forall i :: 0 <= i < n ==> t[..n][i] == t[i];
  }

  /** The first word of `split()` is the leading run of non-blanks; the others are the split of the rest. */
  lemma SplitIndex(s: string, k: nat)
    requires k < |Split(s)|
    ensures TrimLeft(s) != []
    ensures var t := TrimLeft(s); var n := WordEnd(t);
      |Split(s)| == 1 + |Split(t[n..])| &&
      Split(s)[k] == if k == 0 then t[..n] else Split(t[n..])[k - 1]
  {
    var t := TrimLeft(s);
    var n := WordEnd(t);
    ConsAt(t[..n], Split(t[n..]), k);
  }

  /** Every element of `split()` is a non-empty run of non-blank characters. */
  lemma {:induction false} SplitWords(s: string)
    ensures forall k :: 0 <= k < |Split(s)| ==> IsWord(Split(s)[k])
    decreases |s|
  {
    var t := TrimLeft(s);
    if t != [] {
      var n := WordEnd(t);
      assert n > 0;
      var rest := t[n..];
      SplitWords(rest);
      forall k | 0 <= k < |Split(s)|
        ensures IsWord(Split(s)[k])
      {
        SplitIndex(s, k);
        if k == 0 {
          LeadingWord(t);
        }
      }
    }
  }

  /** `split()` of two texts joined by one blank is the split of each, concatenated. */
  lemma {:induction false} SplitAtSpace(x: string, c: char, y: string)
    requires IsSpace(c)
    ensures Split(x + ([c] + y)) == Split(x) + Split(y)
    decreases |x|
  {
    var z := [c] + y;
    var t := TrimLeft(x);
    TrimLeftConcat(x, z);
    if t == [] {
      TrimLeftBlankCons(c, y);
      SplitSameTrim(x + z, y);
      AppendEmpty(Split(y));
    } else {
      var n := WordEnd(t);
      WordEndConcat(t, z);
      SliceOfConcat(t, z, n);
      var w, rest := t[..n], t[n..];
      SplitAtSpace(rest, c, y);
      SplitUnfold(x + z);
      SplitUnfold(x);
      ConsAssoc(w, Split(rest), Split(y));
    }
  }

  lemma SplitTrailingSpace(x: string, c: char)
    requires IsSpace(c)
    ensures Split(x + [c]) == Split(x)
  {
    SplitAtSpace(x, c, []);
    assert x + ([c] + []) == x + [c];
  }

  /** Trailing blanks do not change the split. */
  lemma {:induction false} SplitTrimRight(s: string)
    ensures Split(TrimRight(s)) == Split(s)
    decreases |s|
  {
    if s != [] && IsSpace(s[|s| - 1]) {
      var p := s[..|s| - 1];
      assert s == p + [s[|s| - 1]];
      SplitTrailingSpace(p, s[|s| - 1]);
      SplitTrimRight(p);
    }
  }

  /** `s.strip().split() == s.split()`. */
  lemma SplitStrip(s: string)
    ensures Split(Strip(s)) == Split(s)
  {
    var t := TrimLeft(s);
    SplitTrimRight(t);
    assert TrimLeft(t) == t;
  }

  /** A text made only of blanks has no words. */
  lemma SplitBlank(s: string)
    requires forall i :: 0 <= i < |s| ==> IsSpace(s[i])
    ensures Split(s) == []
  {
  }

  /** A non-empty text without blanks is its own only word. */
  lemma SplitOneWord(w: string)
    requires w != [] && NoSpace(w)
    ensures Split(w) == [w]
  {
    var n := WordEnd(w);
    assert n == |w|;
    assert w[n..] == [];
    assert w[..n] == w;
  }

  lemma {:induction false} NonSpaceCountTrimLeft(s: string)
    ensures NonSpaceCount(TrimLeft(s)) == NonSpaceCount(s)
    decreases |s|
  {
    if s != [] && IsSpace(s[0]) {
      NonSpaceCountTrimLeft(s[1..]);
    }
  }

  lemma {:induction false} NonSpaceCountWord(t: string)
    ensures NonSpaceCount(t) == WordEnd(t) + NonSpaceCount(t[WordEnd(t)..])
    decreases |t|
  {
    if t != [] && !IsSpace(t[0]) {
      NonSpaceCountWord(t[1..]);
      assert t[1..][WordEnd(t[1..])..] == t[WordEnd(t)..];
    }
  }

  lemma TotalLengthCons(w: string, ws: seq<string>)
    ensures TotalLength([w] + ws) == |w| + TotalLength(ws)
  {
    ConsTail(w, ws);
  }

  lemma {:induction false} TotalLengthSnoc(ws: seq<string>, w: string)
    ensures TotalLength(ws + [w]) == TotalLength(ws) + |w|
    decreases |ws|
  {
    if ws == [] {
      AppendEmpty([w]);
      ConsTail(w, []);
    } else {
      TailOfSnoc(ws, w);
      TotalLengthSnoc(ws[1..], w);
    }
  }

  /** `" ".join(xs)` is as long as the parts together plus one blank between each two. */
  lemma {:induction false} JoinSpaceLength(xs: seq<string>)
    requires xs != []
    ensures |JoinSpace(xs)| == TotalLength(xs) + |xs| - 1
    decreases |xs|
  {
    var init, x := xs[..|xs| - 1], xs[|xs| - 1];
    SplitLast(xs);
    TotalLengthSnoc(init, x);
    if |xs| > 1 {
      JoinSpaceLength(init);
    }
  }

  /** Joining two non-empty lists is joining each and putting one blank between them. */
  lemma {:induction false} JoinSpaceConcat(a: seq<string>, b: seq<string>)
    requires a != [] && b != []
    ensures JoinSpace(a + b) == JoinSpace(a) + " " + JoinSpace(b)
    decreases |b|
  {
    DropLastOfConcat(a, b);
    var init := b[..|b| - 1];
    if |b| == 1 {
      AppendEmpty(a);
    } else {
      JoinSpaceConcat(a, init);
    }
  }

  /** Splitting the words joined by single blanks gives the words back. */
  lemma {:induction false} SplitJoin(ws: seq<string>)
    requires forall k :: 0 <= k < |ws| ==> IsWord(ws[k])
    ensures Split(JoinSpace(ws)) == ws
    decreases |ws|
  {
    if |ws| == 1 {
      SplitOneWord(ws[0]);
    } else if |ws| > 1 {
      var init, w := ws[..|ws| - 1], ws[|ws| - 1];
      SplitJoin(init);
      assert JoinSpace(ws) == JoinSpace(init) + ([' '] + w);
      SplitAtSpace(JoinSpace(init), ' ', w);
      SplitOneWord(w);
      SplitLast(ws);
    }
  }

  /** The words of `split()` hold exactly the non-blank characters of the text. */
  lemma {:induction false} SplitKeepsNonSpace(s: string)
    ensures TotalLength(Split(s)) == NonSpaceCount(s)
    decreases |s|
  {
    var t := TrimLeft(s);
    NonSpaceCountTrimLeft(s);
    if t != [] {
      var n := WordEnd(t);
      NonSpaceCountWord(t);
      SplitKeepsNonSpace(t[n..]);
      TotalLengthCons(t[..n], Split(t[n..]));
    }
  }
}
