/** The small part of the Python runtime that the modelled services lean on:
    optional values, the exceptions that escape them uncaught, and the
    whitespace class that `str.split()` uses. */
module PyRuntime {

  datatype Option<+T> = None | Some(value: T)

  /** A Python call that either returns a value or raises. */
  datatype Result<+T> = Success(value: T) | Failure(exception: PyException)

  /** Exceptions that escape a service without being turned into one of its
      own error classes. */
  datatype PyException =
    | KeyError(key: string)   // `d[key]` on a mapping without that key
    | TypeError               // `v[key]` on a value that is not a mapping
    | IndexError              // `[][-1]`
    | ValueError(literal: string)  // `int(s)` on a string that is no integer literal
    | RedisDataError          // the Redis client refuses an HSET with no field/value pairs
    | ValidationError         // a response model refuses a field value

  /** Python's `str.isspace` for one character: the whitespace `str.split()`
      splits on. `int()` strips a slightly smaller set, see `QueryParams`. */
  predicate IsSpace(c: char) {
    || ('\U{0009}' <= c <= '\U{000D}')
    || ('\U{001C}' <= c <= '\U{0020}')
    || c == '\U{0085}' || c == '\U{00A0}' || c == '\U{1680}'
    || ('\U{2000}' <= c <= '\U{200A}')
    || c == '\U{2028}' || c == '\U{2029}' || c == '\U{202F}'
    || c == '\U{205F}' || c == '\U{3000}'
  }

  predicate AllSpace(s: string) {
    forall k :: 0 <= k < |s| ==> IsSpace(s[k])
  }

  predicate NoSpace(s: string) {
    forall k :: 0 <= k < |s| ==> !IsSpace(s[k])
  }

  /** `w` occurs in `s` at `i`, preceded by whitespace or the start of `s`
      and followed by nothing but whitespace. */
  predicate WordAt(w: string, s: string, i: int) {
    && 0 <= i && i + |w| <= |s| && s[i..i + |w|] == w
    && AllSpace(s[i + |w|..]) && (i == 0 || IsSpace(s[i - 1]))
  }

  /** `w` is the last whitespace-separated word of `s`. */
  ghost predicate IsLastWord(w: string, s: string) {
    |w| > 0 && NoSpace(w) && exists i :: WordAt(w, s, i)
  }

  /** The longest suffix of `s` without whitespace. */
  function TrailingRun(s: string): (r: string)
    ensures |r| <= |s| && r == s[|s| - |r|..] && NoSpace(r)
    ensures |r| < |s| ==> IsSpace(s[|s| - |r| - 1])
  {
    if |s| == 0 || IsSpace(s[|s| - 1]) then []
    else
      var prefix := s[..|s| - 1];
      var t := TrailingRun(prefix);
      var r := t + [s[|s| - 1]];
      SuffixExtends(s, |r|);
      NoSpaceExtends(t, s[|s| - 1]);
      assert |r| < |s| ==> s[|s| - |r| - 1] == prefix[|prefix| - |t| - 1];
      r
  }

  /** The last `n` characters of `s` are the last `n - 1` of all but its last
      character, then its last character. */
  lemma SuffixExtends(s: string, n: nat)
    requires 0 < n <= |s|
    ensures s[|s| - n..] == s[..|s| - 1][|s| - n..] + [s[|s| - 1]]
  {
  }

  /** Appending a non-whitespace character keeps a string free of whitespace. */
  lemma NoSpaceExtends(t: string, c: char)
    requires NoSpace(t) && !IsSpace(c)
    ensures NoSpace(t + [c])
  {
    assert forall k :: 0 <= k < |t| ==> (t + [c])[k] == t[k];
  }

  /** A word found before trailing whitespace is still found with one more
      whitespace character appended. */
  lemma WordAtExtend(w: string, s: string, i: int, c: char)
    requires WordAt(w, s, i) && IsSpace(c)
    ensures WordAt(w, s + [c], i)
  {
    var t := s + [c];
    assert t[i..i + |w|] == s[i..i + |w|];
    assert t[i + |w|..] == s[i + |w|..] + [c];
    assert i > 0 ==> t[i - 1] == s[i - 1];
  }

  /** `s.split()[-1]`, or `None` where Python raises `IndexError` because
      `s` holds no word at all. */
  function LastWord(s: string): (r: Option<string>)
    ensures r.None? <==> AllSpace(s)
    ensures r.Some? ==> IsLastWord(r.value, s)
  {
    if |s| == 0 then None
    else if IsSpace(s[|s| - 1]) then
      var prefix := s[..|s| - 1];
      var r := LastWord(prefix);
      assert s == prefix + [s[|s| - 1]];
      assert AllSpace(s) <==> AllSpace(prefix) by {
        assert forall k :: 0 <= k < |prefix| ==> prefix[k] == s[k];
      }
      if r.Some? then
        var i :| WordAt(r.value, prefix, i);
        WordAtExtend(r.value, prefix, i, s[|s| - 1]);
        r
      else r
    else
      var w := TrailingRun(s);
      var i := |s| - |w|;
      assert s[i..i + |w|] == w && s[i + |w|..] == [];
      assert WordAt(w, s, i);
      Some(w)
  }

  /** Both words end where the trailing whitespace begins. */
  lemma EndsAgree(w1: string, w2: string, s: string, i1: int, i2: int)
    requires |w1| > 0 && NoSpace(w1) && WordAt(w1, s, i1)
    requires |w2| > 0 && NoSpace(w2) && WordAt(w2, s, i2)
    ensures i1 + |w1| <= i2 + |w2|
  {
    var k := i1 + |w1| - 1;
    assert !IsSpace(s[k]) by {
      assert s[k] == s[i1..i1 + |w1|][|w1| - 1];
    }
    assert forall m :: i2 + |w2| <= m < |s| ==> IsSpace(s[m]) by {
      assert forall m :: i2 + |w2| <= m < |s| ==> s[m] == s[i2 + |w2|..][m - i2 - |w2|];
    }
  }

  /** Two words ending at the same place begin at the same place. */
  lemma StartsAgree(w1: string, w2: string, s: string, i1: int, i2: int)
    requires |w1| > 0 && NoSpace(w1) && WordAt(w1, s, i1)
    requires |w2| > 0 && NoSpace(w2) && WordAt(w2, s, i2)
    requires i1 + |w1| == i2 + |w2|
    ensures i2 <= i1
  {
    assert forall m :: i1 <= m < i1 + |w1| ==> !IsSpace(s[m]) by {
      assert forall m :: i1 <= m < i1 + |w1| ==> s[m] == s[i1..i1 + |w1|][m - i1];
    }
  }

  /** A string has at most one last word. */
  lemma LastWordUnique(w1: string, w2: string, s: string)
    requires IsLastWord(w1, s) && IsLastWord(w2, s)
    ensures w1 == w2
  {
    var i1 :| WordAt(w1, s, i1);
    var i2 :| WordAt(w2, s, i2);
    EndsAgree(w1, w2, s, i1, i2);
    EndsAgree(w2, w1, s, i2, i1);
    StartsAgree(w1, w2, s, i1, i2);
    StartsAgree(w2, w1, s, i2, i1);
  }

  /** The last word of `prefix + word`, when `prefix` is empty or ends in
      whitespace, is `word`: the token after `"Bearer "`. */
  lemma LastWordAfterSpace(prefix: string, word: string)
    requires |word| > 0 && NoSpace(word)
    requires |prefix| == 0 || IsSpace(prefix[|prefix| - 1])
    ensures LastWord(prefix + word) == Some(word)
  {
    var s := prefix + word;
    var i := |prefix|;
    assert s[i..i + |word|] == word && s[i + |word|..] == [];
    assert i > 0 ==> s[i - 1] == prefix[i - 1];
    assert WordAt(word, s, i);
    assert !AllSpace(s) by {
      assert s[|s| - 1] == word[|word| - 1];
    }
    var r := LastWord(s);
    assert IsLastWord(word, s);
    LastWordUnique(r.value, word, s);
  }
}
