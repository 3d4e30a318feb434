/**
 The string codecs the tokens rely on: space-joined scope strings, decimal
 integers, and separator-delimited records. Strings are sequences of characters;
 where the Go code counts bytes, a character stands for a byte.
 */
module Text {

  /** unicode.IsSpace, which strings.Fields splits on. */
  predicate IsSpace(c: char) {
    c in {' ', '\t', '\n', '\r', '\U{000B}', '\U{000C}', '\U{0085}', '\U{00A0}', '\U{1680}',
          '\U{2028}', '\U{2029}', '\U{202F}', '\U{205F}', '\U{3000}'}
    || '\U{2000}' <= c <= '\U{200A}'
  }

  predicate NoSpace(s: string) {
    forall i | 0 <= i < |s| :: !IsSpace(s[i])
  }

  /** A non-empty string that strings.Fields would not split. */
  predicate IsWord(s: string) {
    s != "" && NoSpace(s)
  }

  // ---- strings.Fields and strings.Join ------------------------------------

  function Flush(word: string): seq<string> {
    if word == "" then [] else [word]
  }

  /** The words of s, where `word` has been read but not yet ended. */
  function Split(s: string, word: string): seq<string> {
    if s == "" then Flush(word)
    else if IsSpace(s[0]) then Flush(word) + Split(s[1..], "")
    else Split(s[1..], word + [s[0]])
  }

  function Fields(s: string): seq<string> {
    Split(s, "")
  }

  function Join<T>(parts: seq<seq<T>>, sep: seq<T>): seq<T> {
    if parts == [] then []
    else if |parts| == 1 then parts[0]
    else parts[0] + sep + Join(parts[1..], sep)
  }

  /** All the words of all the parts, in order. */
  function Words(parts: seq<string>): seq<string> {
    if parts == [] then [] else Fields(parts[0]) + Words(parts[1..])
  }

  lemma {:induction false} SplitAtSpace(a: string, b: string, word: string)
    ensures Split(a + " " + b, word) == Split(a, word) + Split(b, "")
    decreases |a|
  {
    var s := a + " " + b;
    if a == "" {
      assert s[1..] == b;
    } else {
      assert s[0] == a[0];
      assert s[1..] == a[1..] + " " + b;
      SplitAtSpace(a[1..], b, if IsSpace(a[0]) then "" else word + [a[0]]);
    }
  }

  /** Joining then splitting yields the words of the parts, for any parts at all. */
  lemma {:induction false} FieldsOfJoin(parts: seq<string>)
    ensures Fields(Join(parts, " ")) == Words(parts)
  {
    if |parts| == 1 {
      assert parts[1..] == [];
    } else if |parts| > 1 {
      SplitAtSpace(parts[0], Join(parts[1..], " "), "");
      FieldsOfJoin(parts[1..]);
    }
  }

  lemma {:induction false} SplitYieldsWords(s: string, word: string)
    requires word == "" || IsWord(word)
    ensures forall w <- Split(s, word) :: IsWord(w)
    decreases |s|
  {
    if s != "" {
      SplitYieldsWords(s[1..], if IsSpace(s[0]) then "" else word + [s[0]]);
    }
  }

  lemma {:induction false} SplitOfWord(s: string, word: string)
    requires NoSpace(s)
    ensures Split(s, word) == Flush(word + s)
    decreases |s|
  {
    if s == "" {
      assert word + s == word;
    } else {
      SplitOfWord(s[1..], word + [s[0]]);
      assert word + [s[0]] + s[1..] == word + s;
    }
  }

  lemma {:induction false} WordsOfWords(parts: seq<string>)
    requires forall p <- parts :: IsWord(p)
    ensures Words(parts) == parts
  {
    if parts != [] {
      assert parts[0] in parts;
      SplitOfWord(parts[0], "");
      assert "" + parts[0] == parts[0];
      WordsOfWords(parts[1..]);
    }
  }

  lemma {:induction false} InWords(parts: seq<string>, w: string)
    ensures w in Words(parts) <==> exists p <- parts :: w in Fields(p)
  {
    if parts != [] {
      InWords(parts[1..], w);
      assert forall p :: p in parts <==> p == parts[0] || p in parts[1..];
    }
  }

  /** The word stands at the position, with a space or an end of the string on either side. */
  predicate WordAt(s: string, w: string, i: nat) {
    && i + |w| <= |s| && s[i..i + |w|] == w
    && (i == 0 || IsSpace(s[i - 1])) && (i + |w| == |s| || IsSpace(s[i + |w|]))
  }

  ghost predicate StandsIn(s: string, w: string) {
    IsWord(w) && exists i: nat :: WordAt(s, w, i)
  }

  lemma WordWithoutSpaces(word: string, w: string)
    requires NoSpace(word)
    ensures StandsIn(word, w) <==> w in Flush(word)
  {
    if StandsIn(word, w) {
      var i: nat :| WordAt(word, w, i);
      assert i == 0 && |w| == |word|;
      assert word[0..|word|] == word;
    }
    if word != "" && w == word {
      assert word[0..|word|] == word;
      assert WordAt(word, w, 0);
    }
  }

  /** In a string with a space in it a word stands before that space, or after. */
  lemma WordBefore(word: string, space: char, rest: string, w: string, i: nat)
    requires NoSpace(word) && IsSpace(space) && IsWord(w) && i <= |word|
    ensures WordAt(word + [space] + rest, w, i) <==> WordAt(word, w, i)
  {
    var s, n := word + [space] + rest, |word|;
    assert s[n] == space && s[..n] == word;
    if WordAt(s, w, i) {
      assert forall k | i <= k < i + |w| :: s[k] == w[k - i];
      assert i + |w| <= n;
      assert word[i..i + |w|] == s[i..i + |w|];
    }
    if WordAt(word, w, i) {
      assert s[i..i + |w|] == word[i..i + |w|];
    }
  }

  lemma WordAfter(word: string, space: char, rest: string, w: string, i: nat)
    requires IsSpace(space) && IsWord(w)
    ensures WordAt(word + [space] + rest, w, |word| + 1 + i) <==> WordAt(rest, w, i)
  {
    var s, n := word + [space] + rest, |word|;
    assert s[n] == space && s[n + 1..] == rest;
    if i + |w| <= |rest| {
      assert s[n + 1 + i..n + 1 + i + |w|] == rest[i..i + |w|];
    }
  }

  lemma WordBesideSpace(word: string, space: char, rest: string, w: string)
    requires NoSpace(word) && IsSpace(space)
    ensures StandsIn(word + [space] + rest, w) <==> StandsIn(word, w) || StandsIn(rest, w)
  {
    if IsWord(w) {
      forall i: nat ensures i <= |word| ==> (WordAt(word + [space] + rest, w, i) <==> WordAt(word, w, i))
                    ensures WordAt(word + [space] + rest, w, |word| + 1 + i) <==> WordAt(rest, w, i)
      {
        if i <= |word| {
          WordBefore(word, space, rest, w, i);
        }
        WordAfter(word, space, rest, w, i);
      }
      if StandsIn(word + [space] + rest, w) {
        var i: nat :| WordAt(word + [space] + rest, w, i);
        if i > |word| {
          assert WordAt(rest, w, i - |word| - 1);
        }
      }
      if StandsIn(rest, w) {
        var i: nat :| WordAt(rest, w, i);
        assert WordAt(word + [space] + rest, w, |word| + 1 + i);
      }
    }
  }

  lemma {:induction false} InSplit(s: string, word: string, w: string)
    requires NoSpace(word)
    ensures w in Split(s, word) <==> StandsIn(word + s, w)
    decreases |s|
  {
    if s == "" {
      assert word + s == word;
      WordWithoutSpaces(word, w);
    } else if IsSpace(s[0]) {
      InSplit(s[1..], "", w);
      assert "" + s[1..] == s[1..];
      assert word + s == word + [s[0]] + s[1..];
      WordBesideSpace(word, s[0], s[1..], w);
      WordWithoutSpaces(word, w);
    } else {
      InSplit(s[1..], word + [s[0]], w);
      assert word + [s[0]] + s[1..] == word + s;
    }
  }

  /** The fields of a string are exactly its maximal stretches without spaces. */
  lemma InFields(s: string, w: string)
    ensures w in Fields(s) <==> StandsIn(s, w)
  {
    InSplit(s, "", w);
    assert "" + s == s;
  }

  // ---- decimal integers ----------------------------------------------------

  predicate IsDigits(s: string) {
    forall i | 0 <= i < |s| :: '0' <= s[i] <= '9'
  }

  function Decimal(n: nat): string {
    if n < 10 then [('0' as int + n) as char] else Decimal(n / 10) + [('0' as int + n % 10) as char]
  }

  function Value(s: string): nat
    requires IsDigits(s)
  {
    if s == "" then 0 else 10 * Value(s[..|s| - 1]) + (s[|s| - 1] as int - '0' as int)
  }

  lemma {:induction false} DecimalRoundTrip(n: nat)
    ensures IsDigits(Decimal(n)) && Decimal(n) != "" && Value(Decimal(n)) == n
  {
    var s := Decimal(n);
    if n < 10 {
      assert s[..|s| - 1] == "";
    } else {
      DecimalRoundTrip(n / 10);
      assert s[..|s| - 1] == Decimal(n / 10);
    }
  }

  /** strconv.Itoa and fmt's %d. */
  function Itoa(n: int): string {
    if n < 0 then "-" + Decimal(-n) else Decimal(n)
  }

  lemma ItoaCharacters(n: int)
    ensures Itoa(n) != "" && (Itoa(n)[0] == '-' <==> n < 0)
    ensures forall c | c in Itoa(n) :: c == '-' || '0' <= c <= '9'
  {
    DecimalRoundTrip(if n < 0 then -n else n);
  }

  lemma ItoaInjective(m: int, n: int)
    requires Itoa(m) == Itoa(n)
    ensures m == n
  {
    ItoaCharacters(m);
    ItoaCharacters(n);
    DecimalRoundTrip(if m < 0 then -m else m);
    DecimalRoundTrip(if n < 0 then -n else n);
    if m < 0 {
      assert Itoa(m)[1..] == Decimal(-m) && Itoa(n)[1..] == Decimal(-n);
    }
  }

  // ---- separators ----------------------------------------------------------

  /** The first occurrence of a separator splits a string in one way only. */
  lemma SplitFirst<T(!new)>(a: seq<T>, x: seq<T>, b: seq<T>, y: seq<T>, sep: T)
    requires a + [sep] + x == b + [sep] + y
    requires sep !in a && sep !in b
    ensures a == b && x == y
  {
    var s := a + [sep] + x;
    assert s[|a|] == sep && forall i | 0 <= i < |a| :: s[i] == a[i] != sep;
    assert s[|b|] == sep && forall i | 0 <= i < |b| :: s[i] == b[i] != sep;
    assert |a| == |b|;
    assert a == s[..|a|] && b == s[..|b|];
    assert x == s[|a| + 1..] && y == s[|b| + 1..];
  }

  /** And so does the last. */
  lemma SplitLast<T(!new)>(x: seq<T>, a: seq<T>, y: seq<T>, b: seq<T>, sep: T)
    requires x + [sep] + a == y + [sep] + b
    requires sep !in a && sep !in b
    ensures a == b && x == y
  {
    var s := x + [sep] + a;
    assert s[|x|] == sep && forall i | |x| < i < |s| :: s[i] == a[i - |x| - 1] != sep;
    assert s[|y|] == sep && forall i | |y| < i < |s| :: s[i] == b[i - |y| - 1] != sep;
    assert |x| == |y|;
    assert x == s[..|x|] && y == s[..|y|];
    assert a == s[|x| + 1..] && b == s[|y| + 1..];
  }
}
