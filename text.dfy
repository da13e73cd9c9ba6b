/**
  Character classes and string operations shared by the Python sources:
  `str.lower`, `str.split()` / `' '.join`, `str.strip`, `str.split(sep)` and the
  regex classes `\w` and `\s`. Everything is stated over ASCII.
 */
module Text {

  predicate IsUpper(c: char) { 'A' <= c <= 'Z' }

  predicate IsLetter(c: char) { 'a' <= c <= 'z' || 'A' <= c <= 'Z' }

  predicate IsDigit(c: char) { '0' <= c <= '9' }

  /** The regex class `\w`. */
  predicate IsWordChar(c: char) { IsLetter(c) || IsDigit(c) || c == '_' }

  /** The regex class `\s` and the separators of `str.split()`: tab, line feed,
      vertical tab, form feed, carriage return, the separators 0x1C-0x1F and space. */
  predicate IsSpace(c: char) { 9 <= c as int <= 13 || 28 <= c as int <= 32 }

  predicate IsLowercase(s: string) { forall i :: 0 <= i < |s| ==> !IsUpper(s[i]) }

  /** `str.contains`: `p` occurs somewhere in `s`. */
  predicate Contains(s: string, p: string) {
    exists i :: 0 <= i <= |s| - |p| && OccursAt(s, p, i)
  }

  /** `p` occurs in `s` starting at index `i`. */
  predicate OccursAt(s: string, p: string, i: nat) {
    i + |p| <= |s| && s[i..i + |p|] == p
  }

  function ToLower(c: char): (d: char)
    ensures !IsUpper(d)
    ensures IsUpper(c) ==> d as int == c as int + 32
    ensures !IsUpper(c) ==> d == c
    ensures IsWordChar(d) <==> IsWordChar(c)
    ensures IsSpace(d) <==> IsSpace(c)
  {
    if IsUpper(c) then (c as int + 32) as char else c
  }

  /** `str.lower()`. */
  function Lower(s: string): (r: string)
    ensures |r| == |s| && IsLowercase(r)
    ensures forall i :: 0 <= i < |s| ==> r[i] == ToLower(s[i])
    ensures IsLowercase(s) ==> r == s
  {
    seq(|s|, i requires 0 <= i < |s| => ToLower(s[i]))
  }

  // ---------------------------------------------------------------------------
  // Whitespace: `str.split()`, `' '.join`, `str.strip()`

  /** A non-empty run of non-whitespace characters: one element of `str.split()`. */
  predicate IsWord(w: string) {
    |w| > 0 && forall i :: 0 <= i < |w| ==> !IsSpace(w[i])
  }

  /** A string as `' '.join(s.split())` leaves it: whitespace only as single
      spaces between words, none at either end. */
  predicate Tidy(s: string) {
    && (forall i :: 0 <= i < |s| && IsSpace(s[i]) ==> s[i] == ' ')
    && (|s| > 0 ==> !IsSpace(s[0]) && !IsSpace(s[|s| - 1]))
    && (forall i :: 0 <= i < |s| - 1 && IsSpace(s[i]) ==> !IsSpace(s[i + 1]))
  }

  /** Length of the leading run of non-whitespace characters. */
  function RunLength(s: string): (k: nat)
    ensures k <= |s|
    ensures forall i :: 0 <= i < k ==> !IsSpace(s[i])
    ensures k < |s| ==> IsSpace(s[k])
  {
    if s == [] || IsSpace(s[0]) then 0 else 1 + RunLength(s[1..])
  }

  /** `s.split()` with no separator: the maximal runs of non-whitespace, in order. */
  function Words(s: string): (ws: seq<string>)
    ensures forall i :: 0 <= i < |ws| ==> IsWord(ws[i])
    decreases |s|
  {
    if s == [] then []
    else if IsSpace(s[0]) then Words(s[1..])
    else
      var k := RunLength(s);
      [s[..k]] + Words(s[k..])
  }

  /** `sep.join(parts)` for a one-character separator. */
  function JoinWith(parts: seq<string>, sep: char): string {
    if |parts| == 0 then ""
    else if |parts| == 1 then parts[0]
    else parts[0] + [sep] + JoinWith(parts[1..], sep)
  }

  /** `' '.join(parts)`. */
  function Join(parts: seq<string>): string {
    JoinWith(parts, ' ')
  }

  /** `' '.join(s.split())`: collapse every whitespace run to one space and trim. */
  function Collapse(s: string): string {
    Join(Words(s))
  }

  function TrimStart(s: string): (r: string)
    ensures |r| <= |s| && r == s[|s| - |r|..]
  {
    if s != [] && IsSpace(s[0]) then TrimStart(s[1..]) else s
  }

  function TrimEnd(s: string): (r: string)
    ensures |r| <= |s| && r == s[..|r|]
  {
    if s != [] && IsSpace(s[|s| - 1]) then TrimEnd(s[..|s| - 1]) else s
  }

  /** `str.strip()`. */
  function Strip(s: string): string {
    TrimEnd(TrimStart(s))
  }

  lemma {:induction false} CharsOfWords(s: string)
    ensures forall i, c :: 0 <= i < |Words(s)| && c in Words(s)[i] ==> c in s
    decreases |s|
  {
    if s == [] {
    } else if IsSpace(s[0]) {
      CharsOfWords(s[1..]);
      forall c | c in s[1..] ensures c in s { }
    } else {
      var k := RunLength(s);
      CharsOfWords(s[k..]);
      assert Words(s) == [s[..k]] + Words(s[k..]);
      forall i, c | 0 <= i < |Words(s)| && c in Words(s)[i] ensures c in s {
        if i == 0 {
          assert c in s[..k];
        } else {
          assert c in Words(s[k..])[i - 1];
          assert c in s[k..];
        }
      }
    }
  }

  lemma {:induction false} CharsOfJoin(parts: seq<string>, sep: char)
    ensures forall c :: c in JoinWith(parts, sep) ==> c == sep || exists i :: 0 <= i < |parts| && c in parts[i]
  {
    if |parts| > 1 {
      CharsOfJoin(parts[1..], sep);
      var rest := JoinWith(parts[1..], sep);
      forall c | c in JoinWith(parts, sep)
        ensures c == sep || exists i :: 0 <= i < |parts| && c in parts[i]
      {
        assert c in parts[0] + [sep] + rest;
        if c in rest && c != sep {
          var i :| 0 <= i < |parts[1..]| && c in parts[1..][i];
          assert c in parts[i + 1];
        } else if c in parts[0] {
          assert c in parts[0];
        }
      }
    }
  }

  /** Collapsing keeps only the non-whitespace characters of its input, plus single spaces. */
  lemma CharsOfCollapse(s: string)
    ensures forall c :: c in Collapse(s) ==> c == ' ' || (c in s && !IsSpace(c))
  {
    var ws := Words(s);
    CharsOfWords(s);
    CharsOfJoin(ws, ' ');
    forall c | c in Collapse(s) && c != ' ' ensures c in s && !IsSpace(c) {
      var i :| 0 <= i < |ws| && c in ws[i];
      var j :| 0 <= j < |ws[i]| && ws[i][j] == c;
    }
  }

  /** Joining words with single spaces gives a tidy string. */
  lemma {:induction false} JoinOfWordsIsTidy(ws: seq<string>)
    requires forall i :: 0 <= i < |ws| ==> IsWord(ws[i])
    ensures Tidy(Join(ws))
    ensures |ws| > 0 ==> |Join(ws)| > 0 && Join(ws)[0] == ws[0][0]
  {
    if |ws| > 1 {
      JoinOfWordsIsTidy(ws[1..]);
      var w, rest := ws[0], Join(ws[1..]);
      var s := w + [' '] + rest;
      assert Join(ws) == s;
      assert s[|w|] == ' ';
      assert forall i :: 0 <= i < |w| ==> s[i] == w[i];
      assert forall i :: |w| < i < |s| ==> s[i] == rest[i - |w| - 1];
      assert !IsSpace(rest[0]);
    }
  }

  /** `' '.join(s.split())` always yields a tidy string. */
  lemma CollapseIsTidy(s: string)
    ensures Tidy(Collapse(s))
  {
    JoinOfWordsIsTidy(Words(s));
  }

  lemma {:induction false} RunLengthOfWord(w: string, t: string)
    requires IsWord(w)
    requires t == [] || IsSpace(t[0])
    ensures RunLength(w + t) == |w|
    decreases |w|
  {
    if |w| > 1 {
      assert (w + t)[1..] == w[1..] + t;
      RunLengthOfWord(w[1..], t);
    } else {
      assert (w + t)[1..] == t;
    }
  }

  /** Splitting words that were joined by single spaces gives back the words. */
  lemma {:induction false} WordsOfJoin(ws: seq<string>)
    requires forall i :: 0 <= i < |ws| ==> IsWord(ws[i])
    ensures Words(Join(ws)) == ws
  {
    if |ws| == 1 {
      var w := ws[0];
      RunLengthOfWord(w, []);
      assert w + [] == w;
      assert w[|w|..] == [];
    } else if |ws| > 1 {
      var w, rest := ws[0], Join(ws[1..]);
      var s := w + [' '] + rest;
      assert Join(ws) == s;
      RunLengthOfWord(w, [' '] + rest);
      assert s == w + ([' '] + rest);
      assert s[..|w|] == w;
      assert s[|w|..] == [' '] + rest;
      assert ([' '] + rest)[1..] == rest;
      WordsOfJoin(ws[1..]);
    }
  }

  lemma TidySuffix(s: string, j: nat)
    requires Tidy(s) && j < |s| && !IsSpace(s[j])
    ensures Tidy(s[j..])
  {
    var t := s[j..];
    assert forall i :: 0 <= i < |t| ==> t[i] == s[j + i];
  }

  /** In a tidy string a word that does not end the string is followed by
      one space and then the next word. */
  lemma TidyWordsStep(s: string)
    requires Tidy(s) && s != [] && RunLength(s) < |s|
    ensures RunLength(s) + 1 < |s| && s[RunLength(s)] == ' '
    ensures Tidy(s[RunLength(s) + 1..])
    ensures Words(s) == [s[..RunLength(s)]] + Words(s[RunLength(s) + 1..])
    ensures Words(s[RunLength(s) + 1..]) != []
  {
    var k := RunLength(s);
    var t := s[k + 1..];
    assert s[k] == ' ' && k + 1 < |s|;
    TidySuffix(s, k + 1);
    assert Words(s[k..]) == Words(t) by {
      assert s[k..][1..] == t;
    }
    assert !IsSpace(t[0]);
  }

  /** Joining a word in front of a non-empty list puts one space between. */
  lemma JoinCons(w: string, ws: seq<string>)
    requires ws != []
    ensures Join([w] + ws) == w + [' '] + Join(ws)
  {
    assert ([w] + ws)[1..] == ws;
  }

  /** A tidy string without a space is one word. */
  lemma TidyWordIsWhole(s: string)
    requires Tidy(s) && s != [] && RunLength(s) == |s|
    ensures Collapse(s) == s
  {
    assert !IsSpace(s[0]) && s[..|s|] == s && s[|s|..] == [];
    assert Words(s) == [s];
  }

  /** A tidy string is its own collapse. */
  lemma {:induction false} CollapseOfTidy(s: string)
    requires Tidy(s)
    ensures Collapse(s) == s
    decreases |s|
  {
    if s != [] {
      var k := RunLength(s);
      if k == |s| {
        TidyWordIsWhole(s);
      } else {
        TidyWordsStep(s);
        var t := s[k + 1..];
        CollapseOfTidy(t);
        CollapseStep(s, k);
      }
    }
  }

  /** A string made of a word, a space and a rest whose collapse is itself,
      where the words of the string are that word and the words of the rest,
      is its own collapse. */
  lemma CollapseStep(s: string, k: nat)
    requires k + 1 < |s| && s[k] == ' '
    requires Words(s) == [s[..k]] + Words(s[k + 1..]) && Words(s[k + 1..]) != []
    requires Collapse(s[k + 1..]) == s[k + 1..]
    ensures Collapse(s) == s
  {
    var w, t := s[..k], s[k + 1..];
    JoinCons(w, Words(t));
    assert s == w + [' '] + t;
  }

  lemma CollapseIdempotent(s: string)
    ensures Collapse(Collapse(s)) == Collapse(s)
  {
    CollapseIsTidy(s);
    CollapseOfTidy(Collapse(s));
  }

  lemma StripOfTidy(s: string)
    requires Tidy(s)
    ensures Strip(s) == s
  {
  }

  // ---------------------------------------------------------------------------
  // `str.split(sep)` with a one-character separator

  /** `s.split(sep)`: the pieces between separators, empty pieces included. */
  function Split(s: string, sep: char): (parts: seq<string>)
    ensures |parts| >= 1
  {
    if s == [] then [""]
    else
      var rest := Split(s[1..], sep);
      if s[0] == sep then [""] + rest else [[s[0]] + rest[0]] + rest[1..]
  }

  /** Joining the pieces of a split with the same separator restores the string. */
  lemma {:induction false} JoinOfSplit(s: string, sep: char)
    ensures JoinWith(Split(s, sep), sep) == s
  {
    if s != [] {
      var rest := Split(s[1..], sep);
      JoinOfSplit(s[1..], sep);
      if s[0] == sep {
        assert ([""] + rest)[1..] == rest;
        assert s == [sep] + s[1..];
      } else {
        var parts := [[s[0]] + rest[0]] + rest[1..];
        if |rest| > 1 {
          assert parts[1..] == rest[1..];
          assert JoinWith(rest, sep) == rest[0] + [sep] + JoinWith(rest[1..], sep);
        }
        assert s == [s[0]] + s[1..];
      }
    }
  }

  lemma {:induction false} SplitOfPiece(a: string, sep: char)
    requires sep !in a
    ensures Split(a, sep) == [a]
  {
    if a != [] {
      SplitOfPiece(a[1..], sep);
      assert [a[0]] + a[1..] == a;
    }
  }

  lemma {:induction false} SplitAtFirstSeparator(a: string, b: string, sep: char)
    requires sep !in a
    ensures Split(a + [sep] + b, sep) == [a] + Split(b, sep)
  {
    var s := a + [sep] + b;
    if a == [] {
      assert s[0] == sep && s[1..] == b;
    } else {
      assert s[1..] == a[1..] + [sep] + b;
      SplitAtFirstSeparator(a[1..], b, sep);
      assert [a[0]] + a[1..] == a;
    }
  }

  /** Splitting pieces that were joined, none holding the separator, gives back the pieces. */
  lemma {:induction false} SplitOfJoin(parts: seq<string>, sep: char)
    requires |parts| >= 1
    requires forall i :: 0 <= i < |parts| ==> sep !in parts[i]
    ensures Split(JoinWith(parts, sep), sep) == parts
  {
    if |parts| == 1 {
      SplitOfPiece(parts[0], sep);
    } else {
      SplitOfJoin(parts[1..], sep);
      SplitAtFirstSeparator(parts[0], JoinWith(parts[1..], sep), sep);
      assert [parts[0]] + parts[1..] == parts;
    }
  }

  /** A split yields one more piece than there are separators. */
  lemma {:induction false} SplitCount(s: string, sep: char)
    ensures |Split(s, sep)| == multiset(s)[sep] + 1
  {
    if s != [] {
      SplitCount(s[1..], sep);
      assert s == [s[0]] + s[1..];
      assert multiset(s) == multiset([s[0]]) + multiset(s[1..]);
    }
  }
}
