/** Whitespace splitting as done by Python's `str.split()` called with no
    argument: the string is cut at runs of whitespace and empty pieces are
    dropped, so leading, trailing and repeated whitespace yield no words. */
module WordSplit {

  /** The characters for which Python's `str.isspace()` holds, which are the
      separators of `str.split()` with no argument. */
  predicate IsSpace(c: char) {
    || c == ' '
    || ('\t' <= c <= '\r')          // tab, line feed, vertical tab, form feed, carriage return
    || ('\U{1C}' <= c <= '\U{1F}')  // file, group, record and unit separators
    || c == '\U{85}'                // next line
    || c == '\U{A0}'                // no-break space
    || c == '\U{1680}'
    || ('\U{2000}' <= c <= '\U{200A}')
    || c == '\U{2028}' || c == '\U{2029}'
    || c == '\U{202F}' || c == '\U{205F}' || c == '\U{3000}'
  }

  /** True when no character of `s` is whitespace. */
  predicate NoSpace(s: string) {
    forall i :: 0 <= i < |s| ==> !IsSpace(s[i])
  }

  /** True when every character of `s` is whitespace (vacuously for ""). */
  predicate Blank(s: string) {
    forall i :: 0 <= i < |s| ==> IsSpace(s[i])
  }

  /** A word as `str.split()` returns it: non-empty and free of whitespace. */
  predicate IsWord(w: string) {
    |w| > 0 && NoSpace(w)
  }

  /** The longest prefix of `s` that holds no whitespace. */
  function LeadingWord(s: string): (w: string)
    ensures |w| <= |s| && w == s[..|w|]
    ensures NoSpace(w)
    ensures |w| < |s| ==> IsSpace(s[|w|])
  {
    if s == [] || IsSpace(s[0]) then [] else [s[0]] + LeadingWord(s[1..])
  }

  /** `s.split()`: the maximal whitespace-free runs of `s`, in order. */
  function Split(s: string): (words: seq<string>)
    ensures forall k :: 0 <= k < |words| ==> IsWord(words[k])
    decreases |s|
  {
    if s == [] then []
    else if IsSpace(s[0]) then Split(s[1..])
    else
      var w := LeadingWord(s);
      [w] + Split(s[|w|..])
  }

  /** The characters of `s` that are not whitespace, in their order in `s`. */
  function NonSpace(s: string): string {
    if s == [] then [] else (if IsSpace(s[0]) then [] else [s[0]]) + NonSpace(s[1..])
  }

  /** The words laid end to end with nothing between them. */
  function Concat(words: seq<string>): string {
    if words == [] then [] else words[0] + Concat(words[1..])
  }

  /** `" ".join(words)`: the inverse partner of `Split` on lists of words. */
  function Join(words: seq<string>): string {
    if words == [] then []
    else if |words| == 1 then words[0]
    else words[0] + " " + Join(words[1..])
  }

  /** A string splits into no words exactly when it is empty or all
      whitespace; this is the case in which the caption loop never runs. */
  lemma {:induction false} SplitEmptyIffBlank(s: string)
    ensures Split(s) == [] <==> Blank(s)
    decreases |s|
  {
    if s != [] {
      if IsSpace(s[0]) {
        SplitEmptyIffBlank(s[1..]);
        assert Blank(s) <==> Blank(s[1..]) by {
          if Blank(s[1..]) {
            forall i | 0 <= i < |s| ensures IsSpace(s[i]) {
              if i > 0 { assert s[i] == s[1..][i - 1]; }
            }
          }
        }
      } else {
        assert !Blank(s);
      }
    }
  }

  lemma {:induction false} NonSpaceOfWord(w: string)
    requires NoSpace(w)
    ensures NonSpace(w) == w
    decreases |w|
  {
    if w != [] {
      NonSpaceOfWord(w[1..]);
    }
  }

  lemma {:induction false} NonSpaceAppend(a: string, b: string)
    ensures NonSpace(a + b) == NonSpace(a) + NonSpace(b)
    decreases |a|
  {
    if a == [] {
      assert a + b == b;
    } else {
      assert (a + b)[1..] == a[1..] + b;
      NonSpaceAppend(a[1..], b);
    }
  }

  /** The words keep every non-whitespace character of the input, in the
      input's order, and nothing else. */
  lemma {:induction false} SplitKeepsCharacters(s: string)
    ensures Concat(Split(s)) == NonSpace(s)
    decreases |s|
  {
    if s != [] {
      if IsSpace(s[0]) {
        SplitKeepsCharacters(s[1..]);
      } else {
        var w := LeadingWord(s);
        SplitKeepsCharacters(s[|w|..]);
        assert s == w + s[|w|..];
        NonSpaceAppend(w, s[|w|..]);
        NonSpaceOfWord(w);
      }
    }
  }

  lemma {:induction false} LeadingWordBeforeSpace(a: string, t: string)
    requires t != [] && IsSpace(t[0])
    ensures LeadingWord(a + t) == LeadingWord(a)
    decreases |a|
  {
    if a == [] {
      assert a + t == t;
    } else {
      assert (a + t)[0] == a[0];
      assert (a + t)[1..] == a[1..] + t;
      LeadingWordBeforeSpace(a[1..], t);
    }
  }

  /** Cutting at one whitespace character splits the two sides independently. */
  lemma {:induction false} SplitAroundSpace(a: string, c: char, b: string)
    requires IsSpace(c)
    ensures Split(a + [c] + b) == Split(a) + Split(b)
    decreases |a|
  {
    var s := a + [c] + b;
    if a == [] {
      assert s == [c] + b;
      assert s[1..] == b;
    } else if IsSpace(a[0]) {
      assert s[0] == a[0];
      assert s[1..] == a[1..] + [c] + b;
      SplitAroundSpace(a[1..], c, b);
    } else {
      assert s[0] == a[0];
      LeadingWordBeforeSpace(a, [c] + b);
      assert s == a + ([c] + b);
      var w := LeadingWord(a);
      assert LeadingWord(s) == w;
      assert s[|w|..] == a[|w|..] + [c] + b;
      SplitAroundSpace(a[|w|..], c, b);
      calc {
        Split(s);
        [w] + Split(s[|w|..]);
        [w] + Split(a[|w|..]) + Split(b);
        Split(a) + Split(b);
      }
    }
  }

  /** A single word splits into itself. */
  lemma {:induction false} SplitOfWord(w: string)
    requires IsWord(w)
    ensures Split(w) == [w]
  {
    assert LeadingWord(w) == w;
    assert w[|w|..] == [];
  }

  /** Splitting the space-joined words gives the words back. */
  lemma {:induction false} SplitJoin(words: seq<string>)
    requires forall k :: 0 <= k < |words| ==> IsWord(words[k])
    ensures Split(Join(words)) == words
    decreases |words|
  {
    if |words| == 1 {
      SplitOfWord(words[0]);
    } else if |words| > 1 {
      SplitJoin(words[1..]);
      SplitOfWord(words[0]);
      SplitAroundSpace(words[0], ' ', Join(words[1..]));
      assert Join(words) == words[0] + [' '] + Join(words[1..]);
    }
  }
}
