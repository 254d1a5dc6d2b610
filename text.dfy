/** String helpers with the meaning of the Python `str` methods the scorer uses (ASCII letters only). */
module Text {
  type Str = seq<char>

  predicate IsUpper(c: char) { 'A' <= c <= 'Z' }
  predicate IsLowerLetter(c: char) { 'a' <= c <= 'z' }
  predicate IsDigit(c: char) { '0' <= c <= '9' }

  /** ASCII whitespace as Python's `str.split()` and `str.strip()` see it (space, \t..\r, \x1c..\x1f). */
  predicate IsSpace(c: char) { c == ' ' || 9 <= c as int <= 13 || 28 <= c as int <= 31 }

  function LowerChar(c: char): (d: char)
    ensures !IsUpper(d)
    ensures !IsUpper(c) ==> d == c
    ensures IsSpace(d) <==> IsSpace(c)
  {
    if IsUpper(c) then (c as int - 'A' as int + 'a' as int) as char else c
  }

  /** `s.lower()` */
  function Lower(s: Str): (r: Str)
    ensures |r| == |s|
    ensures forall i :: 0 <= i < |s| ==> r[i] == LowerChar(s[i])
  {
    seq(|s|, i requires 0 <= i < |s| => LowerChar(s[i]))
  }

  /** Length of the longest prefix of `s` without whitespace. */
  function WordLen(s: Str): (n: nat)
    ensures n <= |s|
    ensures forall i :: 0 <= i < n ==> !IsSpace(s[i])
    ensures n < |s| ==> IsSpace(s[n])
  {
    if s == [] || IsSpace(s[0]) then 0 else 1 + WordLen(s[1..])
  }

  predicate NoSpace(w: Str) { forall i :: 0 <= i < |w| ==> !IsSpace(w[i]) }

  /** `s.split()`: the maximal runs of non-whitespace characters, in order. */
  function Split(s: Str): (ws: seq<Str>)
    ensures forall k :: 0 <= k < |ws| ==> ws[k] != [] && NoSpace(ws[k])
    decreases |s|
  {
    if s == [] then []
    else if IsSpace(s[0]) then Split(s[1..])
    else
      var n := WordLen(s);
      [s[..n]] + Split(s[n..])
  }

  /** Every character of every word of `s.split()` is a character of `s`; so a property of all of `s`'s characters holds of the words. */
  lemma {:induction false} SplitPreserves(s: Str, p: char -> bool)
    requires forall i :: 0 <= i < |s| ==> p(s[i])
    ensures forall k, i :: 0 <= k < |Split(s)| && 0 <= i < |Split(s)[k]| ==> p(Split(s)[k][i])
    decreases |s|
  {
    if s != [] {
      if IsSpace(s[0]) {
        SplitPreserves(s[1..], p);
      } else {
        var n := WordLen(s);
        SplitPreserves(s[n..], p);
        var ws := Split(s);
        assert ws == [s[..n]] + Split(s[n..]);
        forall k, i | 0 <= k < |ws| && 0 <= i < |ws[k]| ensures p(ws[k][i]) {
          if k > 0 { assert ws[k] == Split(s[n..])[k - 1]; }
        }
      }
    }
  }

  /** `sep.join(ws)` */
  function Join(ws: seq<Str>, sep: Str): Str {
    if ws == [] then []
    else if |ws| == 1 then ws[0]
    else ws[0] + sep + Join(ws[1..], sep)
  }

  /** A property of every character of the words and of the separator holds of every character of the joined string. */
  lemma {:induction false} JoinPreserves(ws: seq<Str>, sep: Str, p: char -> bool)
    requires forall k, i :: 0 <= k < |ws| && 0 <= i < |ws[k]| ==> p(ws[k][i])
    requires forall i :: 0 <= i < |sep| ==> p(sep[i])
    ensures forall i :: 0 <= i < |Join(ws, sep)| ==> p(Join(ws, sep)[i])
  {
    if |ws| > 1 {
      JoinPreserves(ws[1..], sep, p);
      var t := Join(ws[1..], sep);
      assert Join(ws, sep) == ws[0] + sep + t;
      forall i | 0 <= i < |Join(ws, sep)| ensures p(Join(ws, sep)[i]) {
        if i < |ws[0]| { assert Join(ws, sep)[i] == ws[0][i]; }
        else if i < |ws[0]| + |sep| { assert Join(ws, sep)[i] == sep[i - |ws[0]|]; }
        else { assert Join(ws, sep)[i] == t[i - |ws[0]| - |sep|]; assert ws[1..][0] == ws[1]; }
      }
    } else if |ws| == 1 {
      assert Join(ws, sep) == ws[0];
    }
  }

  /** Joining `ws` after a first word `w` puts `w` and one separator in front. */
  lemma JoinCons(w: Str, ws: seq<Str>, sep: Str)
    ensures Join([w] + ws, sep) == if ws == [] then w else w + sep + Join(ws, sep)
  {
    if ws != [] {
      assert ([w] + ws)[1..] == ws;
    }
  }

  /** `' '.join(s.split())` is never longer than `s`: each separator stands for at least one whitespace character. */
  lemma {:induction false} JoinSplitLength(s: Str)
    ensures |Join(Split(s), " ")| <= |s|
    decreases |s|
  {
    if s != [] {
      if IsSpace(s[0]) {
        JoinSplitLength(s[1..]);
      } else {
        var n := WordLen(s);
        var rest := s[n..];
        assert Split(s) == [s[..n]] + Split(rest);
        JoinCons(s[..n], Split(rest), " ");
        if rest != [] {
          assert IsSpace(rest[0]);
          assert Split(rest) == Split(rest[1..]);
          JoinSplitLength(rest[1..]);
        }
      }
    }
  }

  /** A word followed by whitespace or by nothing is exactly the first word. */
  lemma {:induction false} WordLenOf(w: Str, rest: Str)
    requires NoSpace(w)
    requires rest == [] || IsSpace(rest[0])
    ensures WordLen(w + rest) == |w|
  {
    if w != [] {
      assert (w + rest)[1..] == w[1..] + rest;
      WordLenOf(w[1..], rest);
    }
  }

  /** Splitting words joined by single spaces gives the words back. */
  lemma {:induction false} SplitJoin(ws: seq<Str>)
    requires forall k :: 0 <= k < |ws| ==> ws[k] != [] && NoSpace(ws[k])
    ensures Split(Join(ws, " ")) == ws
  {
    if ws != [] {
      var w := ws[0];
      var tail := ws[1..];
      assert ws == [w] + tail;
      JoinCons(w, tail, " ");
      if tail == [] {
        WordLenOf(w, []);
        assert w + [] == w;
        assert w[|w|..] == [];
      } else {
        var t := Join(tail, " ");
        SplitJoin(tail);
        var s := w + " " + t;
        WordLenOf(w, " " + t);
        assert w + (" " + t) == s;
        assert s[..|w|] == w;
        assert s[|w|..] == " " + t;
        assert (" " + t)[1..] == t;
      }
    }
  }

  /** `s` with every whitespace character left out, the others kept in order. */
  function DropSpaces(s: Str): (r: Str)
    ensures |r| <= |s|
    ensures NoSpace(r)
  {
    if s == [] then [] else (if IsSpace(s[0]) then [] else [s[0]]) + DropSpaces(s[1..])
  }

  /** Dropping whitespace from two strings in a row is dropping it from each. */
  lemma {:induction false} DropSpacesAppend(a: Str, b: Str)
    ensures DropSpaces(a + b) == DropSpaces(a) + DropSpaces(b)
  {
    if a != [] {
      assert (a + b)[0] == a[0];
      assert (a + b)[1..] == a[1..] + b;
      DropSpacesAppend(a[1..], b);
    } else {
      assert a + b == b;
    }
  }

  /** A string without whitespace is kept whole. */
  lemma {:induction false} DropSpacesNoSpace(w: Str)
    requires NoSpace(w)
    ensures DropSpaces(w) == w
  {
    if w != [] {
      DropSpacesNoSpace(w[1..]);
      assert w == [w[0]] + w[1..];
    }
  }

  /** `''.join(s.split())` drops exactly the whitespace of `s`. */
  lemma {:induction false} JoinSplitDropsSpaces(s: Str)
    ensures Join(Split(s), "") == DropSpaces(s)
    decreases |s|
  {
    if s != [] {
      if IsSpace(s[0]) {
        JoinSplitDropsSpaces(s[1..]);
      } else {
        var n := WordLen(s);
        JoinSplitWord(s);
        JoinSplitDropsSpaces(s[n..]);
        DropSpacesWord(s, n);
      }
    }
  }

  /** Without separators, the first word is followed directly by the rest's words. */
  lemma JoinSplitWord(s: Str)
    requires s != [] && !IsSpace(s[0])
    ensures Join(Split(s), "") == s[..WordLen(s)] + Join(Split(s[WordLen(s)..]), "")
  {
    var n := WordLen(s);
    var w := s[..n];
    var rest := Split(s[n..]);
    assert Split(s) == [w] + rest;
    JoinCons(w, rest, "");
  }

  /** A space-free prefix is kept whole in front of the rest. */
  lemma DropSpacesWord(s: Str, n: nat)
    requires n <= |s| && NoSpace(s[..n])
    ensures DropSpaces(s) == s[..n] + DropSpaces(s[n..])
  {
    assert s == s[..n] + s[n..];
    DropSpacesAppend(s[..n], s[n..]);
    DropSpacesNoSpace(s[..n]);
  }

  /** Index of the first occurrence of `c` in `s`, or `|s|`. */
  function IndexOf(s: Str, c: char): (n: nat)
    ensures n <= |s|
    ensures forall i :: 0 <= i < n ==> s[i] != c
    ensures n < |s| ==> s[n] == c
  {
    if s == [] || s[0] == c then 0 else 1 + IndexOf(s[1..], c)
  }

  /** `s.split(c)` for a one-character separator: always at least one piece. */
  function SplitOn(s: Str, c: char): (ps: seq<Str>)
    ensures |ps| >= 1
    ensures forall k :: 0 <= k < |ps| ==> c !in ps[k]
    decreases |s|
  {
    var n := IndexOf(s, c);
    if n == |s| then [s] else [s[..n]] + SplitOn(s[n + 1..], c)
  }

  /** `s.lstrip()`: the suffix of `s` left after its leading whitespace. */
  function TrimLeft(s: Str): (r: Str)
    ensures |r| <= |s| && forall i :: 0 <= i < |r| ==> r[i] == s[|s| - |r| + i]
    ensures r == [] || !IsSpace(r[0])
  {
    if s != [] && IsSpace(s[0]) then TrimLeft(s[1..]) else s
  }

  /** `s.rstrip()`: the prefix of `s` left before its trailing whitespace. */
  function TrimRight(s: Str): (r: Str)
    ensures r <= s
    ensures r == [] || !IsSpace(r[|r| - 1])
  {
    if s != [] && IsSpace(s[|s| - 1]) then TrimRight(s[..|s| - 1]) else s
  }

  /** `s.strip()` */
  function Strip(s: Str): Str {
    TrimRight(TrimLeft(s))
  }

  function DigitChar(d: nat): (c: char)
    requires d < 10
    ensures IsDigit(c)
  {
    ('0' as int + d) as char
  }

  /** `str(n)` for a non-negative integer. */
  function NatToString(n: nat): (r: Str)
    ensures r != []
    ensures forall i :: 0 <= i < |r| ==> IsDigit(r[i])
  {
    if n < 10 then [DigitChar(n)] else NatToString(n / 10) + [DigitChar(n % 10)]
  }

  /** Python's `<` on two strings: lexicographic by code point. */
  predicate StrLess(a: Str, b: Str) {
    if a == [] then b != []
    else if b == [] then false
    else if a[0] != b[0] then a[0] < b[0]
    else StrLess(a[1..], b[1..])
  }

  /** Python's `<` on two lists of strings: lexicographic, element by element. */
  predicate StrListLess(a: seq<Str>, b: seq<Str>) {
    if a == [] then b != []
    else if b == [] then false
    else if a[0] != b[0] then StrLess(a[0], b[0])
    else StrListLess(a[1..], b[1..])
  }

  function ToSet(s: seq<Str>): (r: set<Str>)
    ensures forall x :: x in r <==> x in s
  {
    set x | x in s
  }

  predicate NoDup<T(==)>(s: seq<T>) {
    forall i, j :: 0 <= i < j < |s| ==> s[i] != s[j]
  }

  /** The order in which the interpreter iterates over a set of strings: an iteration order the model leaves open. */
  type SetOrder = set<Str> -> seq<Str>

  /** The order lists every member of every set exactly once. */
  ghost predicate Enumerates(order: SetOrder) {
    forall s :: NoDup(order(s)) && ToSet(order(s)) == s
  }

  /** A list has at least as many entries as its set, and exactly as many iff it has no duplicates. */
  lemma {:induction false} SetOfSeqSize(s: seq<Str>)
    ensures |ToSet(s)| <= |s|
    ensures |ToSet(s)| == |s| <==> NoDup(s)
  {
    if s != [] {
      var t := s[1..];
      SetOfSeqSize(t);
      assert ToSet(s) == {s[0]} + ToSet(t);
      if s[0] in t {
        assert ToSet(s) == ToSet(t);
        var j :| 0 <= j < |t| && t[j] == s[0];
        assert s[0] == s[j + 1];
        assert !NoDup(s);
      } else {
        assert |ToSet(s)| == |ToSet(t)| + 1;
        if NoDup(t) {
          forall i, j | 0 <= i < j < |s| ensures s[i] != s[j] {
            if i > 0 { assert s[i] == t[i - 1] && s[j] == t[j - 1]; }
            else { assert s[j] == t[j - 1]; }
          }
        }
        if NoDup(s) {
          forall i, j | 0 <= i < j < |t| ensures t[i] != t[j] {
            assert t[i] == s[i + 1] && t[j] == s[j + 1];
          }
        }
      }
    }
  }

  /** The overlap of `a` with `b` is at most `b`, all of `b` exactly when `b` lies inside `a`, and empty when they are disjoint. */
  lemma OverlapSize<T>(a: set<T>, b: set<T>)
    ensures |a * b| <= |b|
    ensures |a * b| == |b| <==> b <= a
    ensures |a * b| == 0 <==> a !! b
  {
    var c := a * b;
    assert c + b == b;
    assert c * b == c;
    if |c| == |b| {
      assert |b - c| == 0;
      assert b - c == {};
    }
    if !(a !! b) {
      var x :| x in a && x in b;
      assert x in c;
    }
  }
}
