/** ca_string.cpp, str::split: the pieces of a string between delimiters, where
    empty pieces do not count (the behaviour of strtok_r). */
module StringSplit {
  function IndexOf(s: string, c: char): (i: nat)
    ensures i <= |s| && c !in s[..i] && (i < |s| ==> s[i] == c)
  {
    if s == "" || s[0] == c then 0 else
    var i := IndexOf(s[1..], c) + 1;
    assert s[..i] == [s[0]] + s[1..][..i - 1];
    i
  }

  function Split(s: string, delim: char): seq<string>
    decreases |s|
  {
    if s == "" then []
    else if s[0] == delim then Split(s[1..], delim)
    else
      var i := IndexOf(s, delim);
      [s[..i]] + Split(s[i..], delim)
  }

  /** A word without delimiters is one piece. */
  lemma SplitWord(word: string, delim: char)
    requires word != "" && delim !in word
    ensures Split(word, delim) == [word]
  {
    var i := IndexOf(word, delim);
    assert word[0] in word && i == |word|;
    assert word[..i] == word && word[i..] == "";
  }

  /** A delimiter separates the pieces before it from those after it. With
      SplitWord this says what the pieces of every string are. */
  lemma {:induction false} SplitAtDelimiter(a: string, b: string, delim: char)
    ensures Split(a + [delim] + b, delim) == Split(a, delim) + Split(b, delim)
    decreases |a|
  {
    var s := a + [delim] + b;
    if a == "" {
      assert s[1..] == b;
    } else if a[0] == delim {
      SplitAtDelimiter(a[1..], b, delim);
      assert s[1..] == a[1..] + [delim] + b;
    } else {
      var i := IndexOf(a, delim);
      SplitAtDelimiter(a[i..], b, delim);
      FirstIndex(s, delim, i);
      assert s[..i] == a[..i] && s[i..] == a[i..] + [delim] + b;
    }
  }

  lemma FirstIndex(s: string, c: char, i: nat)
    requires i < |s| && c !in s[..i] && s[i] == c
    ensures IndexOf(s, c) == i
  {
    var j := IndexOf(s, c);
    assert forall k | 0 <= k < i :: s[k] in s[..i];
    assert forall k | 0 <= k < j :: s[k] in s[..j];
  }

  /** There are no pieces exactly when the string has nothing but delimiters. */
  lemma {:induction false} NothingToSplit(s: string, delim: char)
    ensures Split(s, delim) == [] <==> forall i | 0 <= i < |s| :: s[i] == delim
  {
    if s != "" && s[0] == delim {
      NothingToSplit(s[1..], delim);
      assert forall i | 0 < i < |s| :: s[i] == s[1..][i - 1];
    }
  }
}
