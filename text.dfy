/** Python string primitives used by the parsers: whitespace `split()`/`strip()`,
    `split(sep)` on one character, substring tests, `lower()`, `replace("*", "")`,
    `isdigit()`, `int()` and `str()` of a natural number. */
module Text {

  datatype Option<T> = None | Some(value: T)

  /** The characters Python's `str.split()` and `str.strip()` treat as whitespace. */
  predicate IsSpace(c: char) {
    c == ' ' || ('\t' <= c <= '\r') || ('\U{001C}' <= c <= '\U{001F}')
    || c == '\U{0085}' || c == '\U{00A0}' || c == '\U{1680}'
    || ('\U{2000}' <= c <= '\U{200A}') || c == '\U{2028}' || c == '\U{2029}'
    || c == '\U{202F}' || c == '\U{205F}' || c == '\U{3000}'
  }

  predicate NoSpace(s: string) {
    forall i :: 0 <= i < |s| ==> !IsSpace(s[i])
  }

  predicate IsDigit(c: char) { '0' <= c <= '9' }

  // ---------------------------------------------------------------- strip()

  function TrimLeft(s: string): (r: string)
    ensures |r| <= |s| && r == s[|s| - |r|..]
    ensures |r| > 0 ==> !IsSpace(r[0])
    ensures forall i :: 0 <= i < |s| - |r| ==> IsSpace(s[i])
  {
    if |s| > 0 && IsSpace(s[0]) then TrimLeft(s[1..]) else s
  }

  function TrimRight(s: string): (r: string)
    ensures |r| <= |s| && r == s[..|r|]
    ensures |r| > 0 ==> !IsSpace(r[|r| - 1])
    ensures forall i :: |r| <= i < |s| ==> IsSpace(s[i])
  {
    if |s| > 0 && IsSpace(s[|s| - 1]) then TrimRight(s[..|s| - 1]) else s
  }

  /** `s.strip()`: the longest infix with no whitespace at either end. */
  function Strip(s: string): (r: string)
    ensures |r| <= |s|
    ensures |r| > 0 ==> !IsSpace(r[0]) && !IsSpace(r[|r| - 1])
  {
    TrimRight(TrimLeft(s))
  }

  /** `strip()` removes exactly the leading and trailing whitespace: what it keeps
      is an infix of `s`, and everything outside that infix is whitespace. */
  lemma StripInfix(s: string)
    ensures exists a, b :: 0 <= a <= b <= |s| && Strip(s) == s[a..b] &&
              forall i :: 0 <= i < a || b <= i < |s| ==> IsSpace(s[i])
  {
    var t := TrimLeft(s);
    var u := TrimRight(t);
    var a := |s| - |t|;
    assert Strip(s) == u && t == s[a..];
    assert u == s[a..a + |u|];
    forall i | a + |u| <= i < |s| ensures IsSpace(s[i]) {
      assert s[i] == t[i - a];
    }
  }

  // ---------------------------------------------------------------- split()

  /** Index of the first whitespace character at or after `i`, or `|s|`. */
  function WordEnd(s: string, i: nat): (k: nat)
    requires i <= |s|
    ensures i <= k <= |s|
    ensures forall j :: i <= j < k ==> !IsSpace(s[j])
    ensures k < |s| ==> IsSpace(s[k])
    decreases |s| - i
  {
    if i == |s| || IsSpace(s[i]) then i else WordEnd(s, i + 1)
  }

  /** `s.split()`: the maximal runs of non-whitespace characters, in order. */
  function Words(s: string): (r: seq<string>)
    ensures forall w :: w in r ==> |w| > 0 && NoSpace(w)
    decreases |s|
  {
    if |s| == 0 then []
    else if IsSpace(s[0]) then Words(s[1..])
    else
      var k := WordEnd(s, 0);
      [s[..k]] + Words(s[k..])
  }

  /** Words of `pre + s` where `pre` is all whitespace are the words of `s`. */
  lemma {:induction false} WordsSkipSpace(pre: string, s: string)
    requires forall i :: 0 <= i < |pre| ==> IsSpace(pre[i])
    ensures Words(pre + s) == Words(s)
    decreases |pre|
  {
    if |pre| > 0 {
      assert IsSpace((pre + s)[0]);
      assert (pre + s)[1..] == pre[1..] + s;
      WordsSkipSpace(pre[1..], s);
    } else {
      assert pre + s == s;
    }
  }

  /** The first word of a string that starts with a non-space character is its
      first run of non-space characters. */
  lemma WordsHead(s: string)
    requires |s| > 0 && !IsSpace(s[0])
    ensures |Words(s)| > 0 && Words(s)[0] == s[..WordEnd(s, 0)]
  {
  }

  /** A non-empty run of non-space characters followed by a space is the first word. */
  lemma WordsCons(w: string, rest: string)
    requires |w| > 0 && NoSpace(w)
    ensures Words(w + " " + rest) == [w] + Words(rest)
  {
    var s := w + " " + rest;
    assert s[|w|] == ' ' && !IsSpace(s[0]);
    var k := WordEnd(s, 0);
    assert forall j :: 0 <= j < |w| ==> s[j] == w[j];
    assert s[..k] == w && s[k..] == " " + rest;
    WordsSkipSpace(" ", rest);
  }

  /** A single word splits to itself. */
  lemma WordsOfWord(w: string)
    requires |w| > 0 && NoSpace(w)
    ensures Words(w) == [w]
  {
    var k := WordEnd(w, 0);
    assert w[..k] == w && w[k..] == [];
  }

  /** A word followed by nothing or by whitespace is the first word. */
  lemma FirstWord(w: string, rest: string)
    requires IsWord(w) && (rest == [] || IsSpace(rest[0]))
    ensures |Words(w + rest)| > 0 && Words(w + rest)[0] == w
  {
    var s := w + rest;
    assert s[0] == w[0];
    WordsHead(s);
    var k := WordEnd(s, 0);
    if |w| < |s| { assert s[|w|] == rest[0]; }
    assert k == |w|;
    assert s[..k] == w;
  }

  /** The first line of the stripped `row + "\n" + tail` is `row`, for a row without
      surrounding whitespace or newline. */
  lemma FirstLineAfterStrip(row: string, tail: string)
    requires |row| > 0 && !IsSpace(row[0]) && !IsSpace(row[|row| - 1]) && '\n' !in row
    ensures var t := Strip(row + "\n" + tail); |t| > 0 && SplitOn(t, '\n')[0] == row
  {
    var out := row + "\n" + tail;
    assert out[0] == row[0] && out[|row| - 1] == row[|row| - 1];
    assert TrimLeft(out) == out;
    var t := TrimRight(out);
    assert |row| <= |t|;
    if |t| == |row| {
      assert t == row;
      SplitOnAbsent(row, '\n');
    } else {
      assert t == row + "\n" + t[|row| + 1..];
      SplitOnFirst(row, '\n', t[|row| + 1..]);
    }
  }

  /** The words of the first line of the stripped `JoinWith(ws, ' ') + "\n" + tail`
      are `ws`. */
  lemma FirstRowWords(ws: seq<string>, tail: string)
    requires |ws| > 0 && forall i :: 0 <= i < |ws| ==> IsWord(ws[i])
    ensures var t := Strip(JoinWith(ws, ' ') + "\n" + tail);
      |t| > 0 && Words(SplitOn(t, '\n')[0]) == ws
  {
    var row := JoinWith(ws, ' ');
    WordsJoin(ws);
    JoinWordsTrimmed(ws);
    assert IsSpace('\n');
    JoinWithOmits(ws, ' ', '\n');
    FirstLineAfterStrip(row, tail);
  }

  /** Printable ASCII other than the space, character by character. */
  predicate IsGraphic(s: string) {
    |s| == 0 || ('!' <= s[0] <= '~' && IsGraphic(s[1..]))
  }

  lemma {:induction false} GraphicNoSpace(s: string)
    requires IsGraphic(s)
    ensures NoSpace(s)
  {
    if |s| > 0 {
      GraphicNoSpace(s[1..]);
      assert forall i :: 1 <= i < |s| ==> s[i] == s[1..][i - 1];
    }
  }

  /** Words joined by single spaces split back into those words. */
  lemma {:induction false} WordsJoin(ws: seq<string>)
    requires |ws| > 0 && forall i :: 0 <= i < |ws| ==> |ws[i]| > 0 && NoSpace(ws[i])
    ensures Words(JoinWith(ws, ' ')) == ws
  {
    if |ws| == 1 {
      WordsOfWord(ws[0]);
    } else {
      WordsJoin(ws[1..]);
      WordsCons(ws[0], JoinWith(ws[1..], ' '));
    }
  }

  predicate IsWord(w: string) {
    |w| > 0 && NoSpace(w)
  }

  /** Three words joined by spaces: they split back, the line has no surrounding
      whitespace and no newline. */
  lemma WordsJoin3(a: string, b: string, c: string)
    requires IsWord(a) && IsWord(b) && IsWord(c)
    ensures Words(JoinWith([a, b, c], ' ')) == [a, b, c]
    ensures var r := JoinWith([a, b, c], ' ');
      |r| > 0 && !IsSpace(r[0]) && !IsSpace(r[|r| - 1]) && '\n' !in r
  {
    var ws := [a, b, c];
    assert forall i :: 0 <= i < |ws| ==> |ws[i]| > 0 && NoSpace(ws[i]);
    WordsJoin(ws);
    JoinWordsTrimmed(ws);
    assert IsSpace('\n');
    JoinWithOmits(ws, ' ', '\n');
  }

  lemma DigitsAreWord(s: string)
    requires IsDigits(s)
    ensures IsWord(s)
  {
  }

  lemma WordsJoin4(a: string, b: string, c: string, d: string)
    requires IsWord(a) && IsWord(b) && IsWord(c) && IsWord(d)
    ensures Words(JoinWith([a, b, c, d], ' ')) == [a, b, c, d]
  {
    var ws := [a, b, c, d];
    assert forall i :: 0 <= i < |ws| ==> |ws[i]| > 0 && NoSpace(ws[i]);
    WordsJoin(ws);
  }

  lemma WordsJoin5(a: string, b: string, c: string, d: string, e: string)
    requires IsWord(a) && IsWord(b) && IsWord(c) && IsWord(d) && IsWord(e)
    ensures Words(JoinWith([a, b, c, d, e], ' ')) == [a, b, c, d, e]
  {
    var ws := [a, b, c, d, e];
    assert forall i :: 0 <= i < |ws| ==> |ws[i]| > 0 && NoSpace(ws[i]);
    WordsJoin(ws);
  }

  /** `strip()` leaves a string without surrounding whitespace unchanged. */
  lemma StripUnchanged(s: string)
    requires |s| > 0 ==> !IsSpace(s[0]) && !IsSpace(s[|s| - 1])
    ensures Strip(s) == s
  {
  }

  // ---------------------------------------------------------------- split(c)

  function IndexOfChar(s: string, c: char): (r: Option<nat>)
    ensures r.Some? ==> r.value < |s| && s[r.value] == c
    ensures r.Some? ==> forall j :: 0 <= j < r.value ==> s[j] != c
    ensures r.None? ==> forall j :: 0 <= j < |s| ==> s[j] != c
  {
    if |s| == 0 then None
    else if s[0] == c then Some(0)
    else match IndexOfChar(s[1..], c)
      case None => None
      case Some(i) => Some(i + 1)
  }

  /** `s.split(c)` for a one-character separator: never empty, pieces free of `c`. */
  function SplitOn(s: string, c: char): (r: seq<string>)
    ensures |r| > 0
    ensures forall p :: p in r ==> c !in p
    decreases |s|
  {
    match IndexOfChar(s, c)
    case None => [s]
    case Some(i) => [s[..i]] + SplitOn(s[i + 1..], c)
  }

  /** Joins pieces with the separator `c`; the inverse of `SplitOn`. */
  function JoinWith(parts: seq<string>, c: char): string
    requires |parts| > 0
  {
    if |parts| == 1 then parts[0] else parts[0] + [c] + JoinWith(parts[1..], c)
  }

  lemma {:induction false} SplitOnJoin(s: string, c: char)
    ensures JoinWith(SplitOn(s, c), c) == s
    decreases |s|
  {
    match IndexOfChar(s, c)
    case None =>
    case Some(i) =>
      SplitOnJoin(s[i + 1..], c);
      assert s == s[..i] + [c] + s[i + 1..];
  }

  /** The first piece of `s.split(c)` is `s` itself or is followed by `c` in `s`. */
  lemma SplitOnHead(s: string, c: char)
    ensures SplitOn(s, c)[0] == s || StartsWith(s, SplitOn(s, c)[0] + [c])
  {
    match IndexOfChar(s, c)
    case None =>
    case Some(i) => assert s[..i] + [c] == s[..i + 1];
  }

  /** Splitting a string without the separator gives the string back. */
  lemma SplitOnAbsent(s: string, c: char)
    requires c !in s
    ensures SplitOn(s, c) == [s]
  {
  }

  /** Splitting pieces free of the separator after joining them gives them back. */
  lemma {:induction false} JoinWithSplit(parts: seq<string>, c: char)
    requires |parts| > 0 && forall i :: 0 <= i < |parts| ==> c !in parts[i]
    ensures SplitOn(JoinWith(parts, c), c) == parts
  {
    if |parts| == 1 {
      SplitOnAbsent(parts[0], c);
    } else {
      JoinWithSplit(parts[1..], c);
      assert c !in parts[0];
      SplitOnFirst(parts[0], c, JoinWith(parts[1..], c));
      assert parts == [parts[0]] + parts[1..];
    }
  }

  /** Splitting a piece free of `c`, then `c`, then `rest` gives the piece first. */
  lemma SplitOnFirst(p: string, c: char, rest: string)
    requires c !in p
    ensures SplitOn(p + [c] + rest, c) == [p] + SplitOn(rest, c)
  {
    var s := p + [c] + rest;
    assert s[|p|] == c && forall j :: 0 <= j < |p| ==> s[j] == p[j];
    assert IndexOfChar(s, c) == Some(|p|);
    assert s[..|p|] == p && s[|p| + 1..] == rest;
  }

  /** A character that is neither the separator nor in any piece is not in the join. */
  lemma {:induction false} JoinWithOmits(parts: seq<string>, c: char, x: char)
    requires |parts| > 0 && x != c && forall i :: 0 <= i < |parts| ==> x !in parts[i]
    ensures x !in JoinWith(parts, c)
  {
    if |parts| > 1 {
      JoinWithOmits(parts[1..], c, x);
    }
  }

  /** Words joined by spaces neither start nor end with whitespace. */
  lemma {:induction false} JoinWordsTrimmed(ws: seq<string>)
    requires |ws| > 0 && forall i :: 0 <= i < |ws| ==> |ws[i]| > 0 && NoSpace(ws[i])
    ensures var r := JoinWith(ws, ' ');
      |r| > 0 && !IsSpace(r[0]) && !IsSpace(r[|r| - 1])
  {
    if |ws| > 1 {
      JoinWordsTrimmed(ws[1..]);
      var r := JoinWith(ws, ' ');
      var t := JoinWith(ws[1..], ' ');
      assert r == ws[0] + [' '] + t;
      assert r[0] == ws[0][0];
      assert r[|r| - 1] == t[|t| - 1];
    }
  }

  // ---------------------------------------------------------------- substrings

  predicate StartsWith(s: string, p: string) {
    |p| <= |s| && s[..|p|] == p
  }

  /** `sub in s` */
  predicate Contains(s: string, sub: string)
    decreases |s|
  {
    StartsWith(s, sub) || (|s| > 0 && Contains(s[1..], sub))
  }

  lemma {:induction false} ContainsAt(s: string, sub: string, i: nat)
    requires i + |sub| <= |s| && s[i..i + |sub|] == sub
    ensures Contains(s, sub)
    decreases i
  {
    if i > 0 {
      assert s[1..][i - 1..i - 1 + |sub|] == s[i..i + |sub|];
      ContainsAt(s[1..], sub, i - 1);
    }
  }

  lemma {:induction false} ContainsWitness(s: string, sub: string) returns (i: nat)
    requires Contains(s, sub)
    ensures i + |sub| <= |s| && s[i..i + |sub|] == sub
    decreases |s|
  {
    if StartsWith(s, sub) {
      i := 0;
    } else {
      var j := ContainsWitness(s[1..], sub);
      assert s[1..][j..j + |sub|] == s[j + 1..j + 1 + |sub|];
      i := j + 1;
    }
  }

  /** A string lacking one of the characters of `sub` does not contain `sub`. */
  lemma MissingCharNotContained(s: string, sub: string, j: nat)
    requires j < |sub| && sub[j] !in s
    ensures !Contains(s, sub)
  {
    if Contains(s, sub) {
      var i := ContainsWitness(s, sub);
    }
  }

  /** Index of the first occurrence of `sub` in `s`. */
  function IndexOf(s: string, sub: string): (r: Option<nat>)
    ensures r.Some? ==> r.value + |sub| <= |s| && s[r.value..r.value + |sub|] == sub
    ensures r.Some? <==> Contains(s, sub)
    decreases |s|
  {
    if StartsWith(s, sub) then Some(0)
    else if |s| == 0 then None
    else match IndexOf(s[1..], sub)
      case None => None
      case Some(i) =>
        assert s[1..][i..i + |sub|] == s[i + 1..i + 1 + |sub|];
        Some(i + 1)
  }

  /** The index `IndexOf` finds is the first occurrence: `sub` starts nowhere before it. */
  lemma {:induction false} IndexOfFirst(s: string, sub: string)
    ensures IndexOf(s, sub).Some? ==>
              forall k :: 0 <= k < IndexOf(s, sub).value ==> !StartsWith(s[k..], sub)
    decreases |s|
  {
    if !StartsWith(s, sub) && |s| > 0 {
      IndexOfFirst(s[1..], sub);
      assert forall k :: 1 <= k <= |s| ==> s[k..] == s[1..][k - 1..];
    }
  }

  /** The text after the first occurrence of `sep`. */
  function AfterFirst(s: string, sep: string): (r: string)
    requires Contains(s, sep)
    ensures IndexOf(s, sep).value + |sep| + |r| == |s|
    ensures r == s[IndexOf(s, sep).value + |sep|..]
  {
    s[IndexOf(s, sep).value + |sep|..]
  }

  /** `s.split(sep)[1]` when `sep in s`: the text between the first occurrence of
      `sep` and the next one (or the end). */
  function SecondPiece(s: string, sep: string): (r: string)
    requires |sep| > 0 && Contains(s, sep)
    ensures !Contains(r, sep)
    ensures StartsWith(AfterFirst(s, sep), r)
    ensures |r| == |AfterFirst(s, sep)| || StartsWith(AfterFirst(s, sep)[|r|..], sep)
  {
    UpToNext(AfterFirst(s, sep), sep)
  }

  /** `rest.split(sep)[0]`: `rest` up to its first `sep`, or all of it. */
  function UpToNext(rest: string, sep: string): (r: string)
    requires |sep| > 0
    ensures !Contains(r, sep)
    ensures StartsWith(rest, r) && (|r| == |rest| || StartsWith(rest[|r|..], sep))
  {
    match IndexOf(rest, sep)
    case None => rest
    case Some(j) =>
      NoEarlierOccurrence(rest, sep, j);
      assert rest[j..][..|sep|] == rest[j..j + |sep|];
      rest[..j]
  }

  /** The first word of `s.split(sep)[1]` when the first `sep` is followed by the
      word `w` and then whitespace or the end of `s`. */
  lemma WordAfterSeparator(s: string, sep: string, w: string, rest: string)
    requires |sep| > 0 && NoSpace(sep) && IsWord(w) && !Contains(w, sep)
    requires rest == [] || IsSpace(rest[0])
    requires Contains(s, sep) && s[IndexOf(s, sep).value + |sep|..] == w + rest
    ensures |Words(SecondPiece(s, sep))| > 0 && Words(SecondPiece(s, sep))[0] == w
  {
    FirstWordOfPiece(w, rest, sep, SecondPiece(s, sep));
  }

  /** A prefix `r` of `w + rest` that ends at the end or just before a `sep` starts
      with the word `w`, when `w` holds no `sep` and `rest` starts with whitespace. */
  lemma FirstWordOfPiece(w: string, rest: string, sep: string, r: string)
    requires |sep| > 0 && NoSpace(sep) && IsWord(w) && !Contains(w, sep)
    requires rest == [] || IsSpace(rest[0])
    requires StartsWith(w + rest, r)
    requires |r| == |w + rest| || StartsWith((w + rest)[|r|..], sep)
    ensures |Words(r)| > 0 && Words(r)[0] == w
  {
    if |r| < |w| {
      SeparatorInsideWord(w, rest, sep, |r|);
    }
    assert r == w + rest[..|r| - |w|];
    FirstWord(w, rest[..|r| - |w|]);
  }

  /** A whitespace-free `sep` that starts inside the word `w` of `w + rest`, where
      `rest` starts with whitespace or is empty, lies wholly inside `w`. */
  lemma SeparatorInsideWord(w: string, rest: string, sep: string, p: nat)
    requires |sep| > 0 && NoSpace(sep) && p < |w|
    requires rest == [] || IsSpace(rest[0])
    requires StartsWith((w + rest)[p..], sep)
    ensures p + |sep| <= |w| && Contains(w, sep)
  {
    var tail := w + rest;
    forall m | p <= m < p + |sep| ensures !IsSpace(tail[m]) {
      assert tail[p..][..|sep|][m - p] == tail[m];
    }
    assert |w| < |tail| ==> IsSpace(tail[|w|]);
    assert w[p..p + |sep|] == tail[p..p + |sep|];
    ContainsAt(w, sep, p);
  }

  lemma NoEarlierOccurrence(s: string, sep: string, j: nat)
    requires |sep| > 0
    requires IndexOf(s, sep) == Some(j)
    ensures !Contains(s[..j], sep)
    decreases |s|
  {
    if j > 0 {
      assert !StartsWith(s, sep);
      assert !StartsWith(s[..j], sep) by {
        if |sep| <= j { assert s[..|sep|] == s[..j][..|sep|]; }
      }
      NoEarlierOccurrence(s[1..], sep, j - 1);
      assert s[..j][1..] == s[1..][..j - 1];
    }
  }

  // ---------------------------------------------------------------- lower(), replace()

  function LowerChar(c: char): char {
    if 'A' <= c <= 'Z' then (c as int + 32) as char else c
  }

  /** `s.lower()` restricted to ASCII letters. */
  function Lower(s: string): (r: string)
    ensures |r| == |s|
    ensures forall i :: 0 <= i < |s| ==> r[i] == LowerChar(s[i])
  {
    if |s| == 0 then [] else [LowerChar(s[0])] + Lower(s[1..])
  }

  /** `s.replace(c, "")` for a one-character `c`. */
  function RemoveChar(s: string, c: char): (r: string)
    ensures c !in r
    ensures |r| <= |s|
  {
    if |s| == 0 then []
    else if s[0] == c then RemoveChar(s[1..], c)
    else [s[0]] + RemoveChar(s[1..], c)
  }

  /** `replace(c, "")` keeps every other character, each as often as before. */
  lemma {:induction false} RemoveCharMultiset(s: string, c: char)
    ensures multiset(RemoveChar(s, c)) == multiset(s)[c := 0]
  {
    if |s| > 0 {
      RemoveCharMultiset(s[1..], c);
      assert s == [s[0]] + s[1..];
    }
  }

  lemma {:induction false} RemoveCharAbsent(s: string, c: char)
    requires c !in s
    ensures RemoveChar(s, c) == s
  {
    if |s| > 0 {
      assert c !in s[1..];
      RemoveCharAbsent(s[1..], c);
    }
  }

  lemma {:induction false} RemoveCharAppend(a: string, b: string, c: char)
    ensures RemoveChar(a + b, c) == RemoveChar(a, c) + RemoveChar(b, c)
  {
    if |a| > 0 {
      assert (a + b)[1..] == a[1..] + b;
      RemoveCharAppend(a[1..], b, c);
    } else {
      assert a + b == b;
    }
  }

  lemma {:induction false} ContainsPrepend(p: string, s: string, sub: string)
    requires Contains(s, sub)
    ensures Contains(p + s, sub)
  {
    var i := ContainsWitness(s, sub);
    assert (p + s)[|p| + i..|p| + i + |sub|] == s[i..i + |sub|];
    ContainsAt(p + s, sub, |p| + i);
  }

  /** Deleting a character that a substring does not contain keeps the
      substring: `sub in s` implies `sub in s.replace(c, "")`. */
  lemma {:induction false} RemoveCharKeepsSubstring(s: string, sub: string, c: char)
    requires c !in sub
    requires Contains(s, sub)
    ensures Contains(RemoveChar(s, c), sub)
  {
    var i := ContainsWitness(s, sub);
    var pre, mid, post := s[..i], s[i..i + |sub|], s[i + |sub|..];
    assert s == pre + (mid + post);
    RemoveCharAppend(pre, mid + post, c);
    RemoveCharAppend(mid, post, c);
    RemoveCharAbsent(mid, c);
    assert StartsWith(RemoveChar(mid + post, c), sub);
    ContainsPrepend(RemoveChar(pre, c), RemoveChar(mid + post, c), sub);
  }

  lemma {:induction false} LowerRemoveCommute(s: string, c: char)
    requires LowerChar(c) == c && forall d :: LowerChar(d) == c ==> d == c
    ensures Lower(RemoveChar(s, c)) == RemoveChar(Lower(s), c)
  {
    if |s| > 0 {
      LowerRemoveCommute(s[1..], c);
      assert Lower(s)[1..] == Lower(s[1..]);
    }
  }

  // ---------------------------------------------------------------- isdigit(), int(), str()

  /** `s.isdigit()` over ASCII digits: non-empty and all digits. */
  predicate IsDigits(s: string) {
    |s| > 0 && forall i :: 0 <= i < |s| ==> IsDigit(s[i])
  }

  /** The digit groups accepted by `int()` in base 10: digits, with single
      underscores allowed between two digits. */
  predicate DigitGroups(s: string) {
    && |s| > 0 && IsDigit(s[0]) && IsDigit(s[|s| - 1])
    && (forall i :: 0 <= i < |s| ==> IsDigit(s[i]) || s[i] == '_')
    && (forall i :: 0 <= i < |s| - 1 ==> !(s[i] == '_' && s[i + 1] == '_'))
  }

  /** Decimal value of the digits of `s`, underscores skipped. */
  function DigitsValue(s: string): nat {
    if |s| == 0 then 0
    else if IsDigit(s[|s| - 1]) then DigitsValue(s[..|s| - 1]) * 10 + (s[|s| - 1] as int - '0' as int)
    else DigitsValue(s[..|s| - 1])
  }

  /** `int(s)` for a token with no surrounding whitespace: `None` is Python's `ValueError`. */
  function ParseInt(s: string): (r: Option<int>)
    ensures r.Some? <==> (DigitGroups(s) || (|s| > 1 && (s[0] == '+' || s[0] == '-') && DigitGroups(s[1..])))
  {
    if DigitGroups(s) then Some(DigitsValue(s))
    else if |s| > 1 && (s[0] == '+' || s[0] == '-') && DigitGroups(s[1..]) then
      var v: int := DigitsValue(s[1..]);
      Some(if s[0] == '-' then -v else v)
    else None
  }

  function DigitChar(d: nat): (c: char)
    requires d < 10
    ensures IsDigit(c) && c as int - '0' as int == d
  {
    ('0' as int + d) as char
  }

  /** `str(n)` for a natural number. */
  function NatToString(n: nat): (r: string)
    ensures IsDigits(r)
  {
    if n < 10 then [DigitChar(n)] else NatToString(n / 10) + [DigitChar(n % 10)]
  }

  /** `int(str(n)) == n`. */
  lemma {:induction false} ParseNatToString(n: nat)
    ensures ParseInt(NatToString(n)) == Some(n)
  {
    NatDigitsValue(n);
  }

  lemma {:induction false} NatDigitsValue(n: nat)
    ensures DigitsValue(NatToString(n)) == n
  {
    var s := NatToString(n);
    if n >= 10 {
      NatDigitsValue(n / 10);
      assert s[..|s| - 1] == NatToString(n / 10);
    } else {
      assert s[..0] == [];
    }
  }

  /** Different numbers print differently. */
  lemma NatToStringInjective(m: nat, n: nat)
    requires NatToString(m) == NatToString(n)
    ensures m == n
  {
    NatDigitsValue(m);
    NatDigitsValue(n);
  }

  // ---------------------------------------------------------------- ordering

  /** Python's `<` on strings: code-point lexicographic order. */
  predicate StrLess(a: string, b: string) {
    if |a| == 0 then |b| > 0
    else if |b| == 0 then false
    else if a[0] != b[0] then a[0] < b[0]
    else StrLess(a[1..], b[1..])
  }

  lemma {:induction false} StrLessIrreflexive(a: string)
    ensures !StrLess(a, a)
  {
    if |a| > 0 { StrLessIrreflexive(a[1..]); }
  }

  lemma {:induction false} StrLessTotal(a: string, b: string)
    ensures a == b || StrLess(a, b) || StrLess(b, a)
  {
    if |a| > 0 && |b| > 0 && a[0] == b[0] {
      StrLessTotal(a[1..], b[1..]);
      if a[1..] == b[1..] { assert a == [a[0]] + a[1..] && b == [b[0]] + b[1..]; }
    }
  }

  lemma {:induction false} StrLessTransitive(a: string, b: string, c: string)
    requires StrLess(a, b) && StrLess(b, c)
    ensures StrLess(a, c)
  {
    if |a| > 0 && |b| > 0 && |c| > 0 && a[0] == b[0] && b[0] == c[0] {
      StrLessTransitive(a[1..], b[1..], c[1..]);
    }
  }

  lemma StrLessAsymmetric(a: string, b: string)
    requires StrLess(a, b)
    ensures !StrLess(b, a)
  {
    if StrLess(b, a) {
      StrLessTransitive(a, b, a);
      StrLessIrreflexive(a);
    }
  }

  predicate StrictlySorted(xs: seq<string>) {
    forall i, j :: 0 <= i < j < |xs| ==> StrLess(xs[i], xs[j])
  }

  /** An element below the head of a sorted sequence is below all of it. */
  lemma BelowHead(x: string, xs: seq<string>)
    requires StrictlySorted(xs) && |xs| > 0 && StrLess(x, xs[0])
    ensures StrictlySorted([x] + xs)
  {
    forall j | 0 < j < |xs| ensures StrLess(x, xs[j]) { StrLessTransitive(x, xs[0], xs[j]); }
  }

  /** The head of a sorted sequence is below whatever its tail holds after an insertion. */
  lemma HeadBelowRest(x: string, xs: seq<string>, rest: seq<string>)
    requires StrictlySorted(xs) && |xs| > 0 && StrLess(xs[0], x)
    requires StrictlySorted(rest) && multiset(rest) == multiset(xs[1..]) + multiset{x}
    ensures StrictlySorted([xs[0]] + rest)
  {
    forall j | 0 <= j < |rest| ensures StrLess(xs[0], rest[j]) {
      assert rest[j] in multiset(rest);
      assert rest[j] == x || rest[j] in xs[1..];
    }
  }

  function InsertSorted(x: string, xs: seq<string>): (r: seq<string>)
    requires StrictlySorted(xs) && x !in xs
    ensures StrictlySorted(r)
    ensures multiset(r) == multiset(xs) + multiset{x}
  {
    if |xs| == 0 then [x]
    else if StrLess(x, xs[0]) then
      BelowHead(x, xs);
      [x] + xs
    else
      StrLessTotal(x, xs[0]);
      var rest := InsertSorted(x, xs[1..]);
      HeadBelowRest(x, xs, rest);
      assert xs == [xs[0]] + xs[1..];
      [xs[0]] + rest
  }

  /** `sorted(names)` for distinct names: strictly increasing, same elements. */
  function SortStrings(xs: seq<string>): (r: seq<string>)
    requires forall i, j :: 0 <= i < j < |xs| ==> xs[i] != xs[j]
    ensures StrictlySorted(r)
    ensures multiset(r) == multiset(xs)
  {
    if |xs| == 0 then []
    else
      assert xs == [xs[0]] + xs[1..];
      var tail := SortStrings(xs[1..]);
      assert xs[0] !in multiset(tail);
      InsertSorted(xs[0], tail)
  }

  /** `list(s)`: the elements of a set in some order. */
  ghost function SetToSeq(s: set<string>): (r: seq<string>)
    ensures forall i, j :: 0 <= i < j < |r| ==> r[i] != r[j]
    ensures forall x :: x in r <==> x in s
  {
    if s == {} then []
    else
      var x :| x in s;
      var rest := SetToSeq(s - {x});
      assert x !in rest;
      [x] + rest
  }

  /** `sorted(list(s))`: whichever order `list` picks, the result is the same (see
      `StrictlySortedUnique`). */
  ghost function SortedNames(s: set<string>): (r: seq<string>)
    ensures StrictlySorted(r)
    ensures forall x :: x in r <==> x in s
  {
    var xs := SetToSeq(s);
    var r := SortStrings(xs);
    assert forall x :: x in r <==> x in multiset(xs);
    r
  }

  lemma StrLessAsymmetry(a: string, b: string)
    ensures StrLess(a, b) ==> !StrLess(b, a)
  {
    if StrLess(a, b) && StrLess(b, a) {
      StrLessTransitive(a, b, a);
      StrLessIrreflexive(a);
    }
  }

  /** Two strictly sorted sequences with the same elements are equal: the order
      in which a set is enumerated before sorting does not matter. */
  lemma {:induction false} StrictlySortedUnique(a: seq<string>, b: seq<string>)
    requires StrictlySorted(a) && StrictlySorted(b)
    requires forall x :: x in a <==> x in b
    ensures a == b
    decreases |a|
  {
    SameElementsNonEmpty(a, b);
    SameElementsNonEmpty(b, a);
    if |a| > 0 {
      SortedSameHead(a, b);
      SortedSameTail(a, b);
      StrictlySortedUnique(a[1..], b[1..]);
      assert a == [a[0]] + a[1..] && b == [b[0]] + b[1..];
    }
  }

  lemma SameElementsNonEmpty(a: seq<string>, b: seq<string>)
    requires forall x :: x in a <==> x in b
    ensures |a| > 0 ==> |b| > 0
  {
    if |a| > 0 {
      assert a[0] in a;
    }
  }

  /** Strictly sorted sequences with the same elements start alike: each head is
      the least element of both. */
  lemma SortedSameHead(a: seq<string>, b: seq<string>)
    requires StrictlySorted(a) && StrictlySorted(b) && |a| > 0 && |b| > 0
    requires forall x :: x in a <==> x in b
    ensures a[0] == b[0]
  {
    assert a[0] in a && b[0] in b;
    var k :| 0 <= k < |b| && b[k] == a[0];
    var m :| 0 <= m < |a| && a[m] == b[0];
    StrLessAsymmetry(a[0], b[0]);
  }

  /** ... and so their tails hold the same elements. */
  lemma SortedSameTail(a: seq<string>, b: seq<string>)
    requires StrictlySorted(a) && StrictlySorted(b) && |a| > 0 && |b| > 0 && a[0] == b[0]
    requires forall x :: x in a <==> x in b
    ensures forall x :: x in a[1..] <==> x in b[1..]
  {
    StrLessIrreflexive(a[0]);
    forall x | x in a[1..] ensures x in b[1..] {
      var i :| 1 <= i < |a| && a[i] == x;
      assert x != a[0] && x in b;
      var j :| 0 <= j < |b| && b[j] == x;
      assert b[1..][j - 1] == x;
    }
    forall x | x in b[1..] ensures x in a[1..] {
      var i :| 1 <= i < |b| && b[i] == x;
      assert x != b[0] && x in a;
      var j :| 0 <= j < |a| && a[j] == x;
      assert a[1..][j - 1] == x;
    }
  }
}
