/** The string operations of Python 2 that screed relies on: str.strip, split(' ', 1),
    ''.join, '\n'.join, string repetition, str() of an integer, and reading a text file
    line by line with readline().strip(). */
module Text {

  /** The characters str.strip() removes: space, tab, newline, carriage return,
      vertical tab and form feed. */
  predicate IsSpace(c: char) {
    c == ' ' || c == '\t' || c == '\n' || c == '\r' || c == 11 as char || c == 12 as char
  }

  predicate NoSpace(s: string) {
    forall i :: 0 <= i < |s| ==> !IsSpace(s[i])
  }

  /** Neither end of s is whitespace: the strings str.strip() leaves unchanged. */
  predicate Trimmed(s: string) {
    s == [] || (!IsSpace(s[0]) && !IsSpace(s[|s| - 1]))
  }

  function TrimLeft(s: string): (r: string)
    ensures |r| <= |s|
    ensures r == [] || !IsSpace(r[0])
  {
    if s != [] && IsSpace(s[0]) then TrimLeft(s[1..]) else s
  }

  function TrimRight(s: string): (r: string)
    ensures |r| <= |s|
    ensures r == [] || !IsSpace(r[|r| - 1])
    ensures r != [] ==> r[0] == s[0]
  {
    if s != [] && IsSpace(s[|s| - 1]) then TrimRight(s[..|s| - 1]) else s
  }

  /** str.strip(): removes leading and trailing whitespace, keeps everything in between. */
  function Strip(s: string): (r: string)
    ensures Trimmed(r)
    ensures Trimmed(s) ==> r == s
  {
    TrimRight(TrimLeft(s))
  }

  /** strip() only removes characters. */
  lemma StripKeeps(s: string)
    ensures forall c :: c in Strip(s) ==> c in s
  {
    TrimRightKeeps(TrimLeft(s));
    TrimLeftKeeps(s);
  }

  lemma {:induction false} TrimLeftKeeps(s: string)
    ensures forall c :: c in TrimLeft(s) ==> c in s
    decreases |s|
  {
    if s != [] && IsSpace(s[0]) {
      TrimLeftKeeps(s[1..]);
      assert forall c :: c in s[1..] ==> c in s;
    }
  }

  lemma {:induction false} TrimRightKeeps(s: string)
    ensures forall c :: c in TrimRight(s) ==> c in s
    decreases |s|
  {
    if s != [] && IsSpace(s[|s| - 1]) {
      TrimRightKeeps(s[..|s| - 1]);
      assert forall c :: c in s[..|s| - 1] ==> c in s;
    }
  }

  /** strip() removes a run of whitespace from each end and keeps the middle of s as it is. */
  lemma StripMiddle(s: string)
    ensures exists i, j ::
      && 0 <= i <= j <= |s| && Strip(s) == s[i..j]
      && (forall k :: 0 <= k < i ==> IsSpace(s[k]))
      && (forall k :: j <= k < |s| ==> IsSpace(s[k]))
  {
    var t := TrimLeft(s);
    TrimLeftDrops(s);
    TrimRightDrops(t);
    var i := |s| - |t|;
    var j := i + |TrimRight(t)|;
    assert t == s[i..];
    assert Strip(s) == t[..j - i] == s[i..j];
    forall k | j <= k < |s|
      ensures IsSpace(s[k])
    {
      assert s[k] == t[k - i];
    }
    assert 0 <= i <= j <= |s| && Strip(s) == s[i..j]
      && (forall k :: 0 <= k < i ==> IsSpace(s[k]))
      && (forall k :: j <= k < |s| ==> IsSpace(s[k]));
  }

  /** TrimLeft drops a prefix of whitespace. */
  lemma {:induction false} TrimLeftDrops(s: string)
    ensures TrimLeft(s) == s[|s| - |TrimLeft(s)|..]
    ensures forall k :: 0 <= k < |s| - |TrimLeft(s)| ==> IsSpace(s[k])
    decreases |s|
  {
    if s != [] && IsSpace(s[0]) {
      TrimLeftDrops(s[1..]);
      forall k | 0 < k < |s| - |TrimLeft(s)|
        ensures IsSpace(s[k])
      {
        assert s[k] == s[1..][k - 1];
      }
    }
  }

  /** TrimRight drops a suffix of whitespace. */
  lemma {:induction false} TrimRightDrops(s: string)
    ensures TrimRight(s) == s[..|TrimRight(s)|]
    ensures forall k :: |TrimRight(s)| <= k < |s| ==> IsSpace(s[k])
    decreases |s|
  {
    if s != [] && IsSpace(s[|s| - 1]) {
      var t := s[..|s| - 1];
      TrimRightDrops(t);
      forall k | |TrimRight(s)| <= k < |s| - 1
        ensures IsSpace(s[k])
      {
        assert s[k] == t[k];
      }
    }
  }

  /** A space written after a stripped string is stripped off again. */
  lemma StripTrailingSpace(s: string)
    requires s != [] && Trimmed(s)
    ensures Strip(s + " ") == s
  {
    var t := s + " ";
    assert t[0] == s[0];
    assert TrimLeft(t) == t;
    assert t[..|t| - 1] == s;
    assert TrimRight(t) == TrimRight(s);
    assert TrimRight(s) == s;
  }

  /** A string without whitespace is its own strip and holds no newline. */
  lemma NoSpaceStripped(s: string)
    requires NoSpace(s)
    ensures Trimmed(s) && '\n' !in s && ' ' !in s
  {
  }

  predicate StartsWith(s: string, c: char) {
    |s| > 0 && s[0] == c
  }

  predicate EndsWith(s: string, suffix: string) {
    |suffix| <= |s| && s[|s| - |suffix|..] == suffix
  }

  /** The position of the first x in s, or |s| when there is none. */
  function IndexOf<T(==)>(s: seq<T>, x: T): (k: nat)
    ensures k <= |s|
    ensures forall j :: 0 <= j < k ==> s[j] != x
    ensures k < |s| ==> s[k] == x
  {
    if s == [] || s[0] == x then 0 else 1 + IndexOf(s[1..], x)
  }

  /** s.split(c, 1) unpacked into two names, with the second '' when s holds no c
      (the ValueError branch of the source). */
  function SplitOnce(s: string, c: char): (r: (string, string))
    ensures c !in r.0
    ensures c !in s ==> r == (s, [])
  {
    var k := IndexOf(s, c);
    if k == |s| then (s, []) else (s[..k], s[k + 1..])
  }

  /** When s holds a c, the two halves with that c between them make up s. */
  lemma SplitOnceJoins(s: string, c: char)
    requires c in s
    ensures s == SplitOnce(s, c).0 + [c] + SplitOnce(s, c).1
  {
    var k := IndexOf(s, c);
    assert s == s[..k] + [c] + s[k + 1..];
  }

  /** Neither half holds a character s does not hold. */
  lemma SplitOnceKeeps(s: string, c: char)
    ensures forall x :: x in SplitOnce(s, c).0 ==> x in s
    ensures forall x :: x in SplitOnce(s, c).1 ==> x in s
  {
    var k := IndexOf(s, c);
    if k < |s| {
      var a, b := s[..k], s[k + 1..];
      assert forall i :: 0 <= i < |a| ==> a[i] == s[i];
      assert forall i :: 0 <= i < |b| ==> b[i] == s[k + 1 + i];
    }
  }

  /** Splitting at the first c of a + [c] + b, where a holds no c, gives a and b back. */
  lemma SplitOnceAt(s: string, c: char, a: string, b: string)
    requires c !in a && s == a + [c] + b
    ensures SplitOnce(s, c) == (a, b)
  {
    assert s[|a|] == c;
    assert forall j :: 0 <= j < |a| ==> s[j] == a[j];
    assert IndexOf(s, c) == |a|;
    assert s[..|a|] == a;
    assert s[|a| + 1..] == b;
  }

  /** ''.join(ls) */
  function Concat(ls: seq<string>): string {
    if ls == [] then [] else ls[0] + Concat(ls[1..])
  }

  lemma {:induction false} ConcatAppend(a: seq<string>, b: seq<string>)
    ensures Concat(a + b) == Concat(a) + Concat(b)
  {
    if a == [] {
      assert a + b == b;
    } else {
      assert (a + b)[1..] == a[1..] + b;
      ConcatAppend(a[1..], b);
    }
  }

  /** sep.join(ls) for a one-character separator. */
  function Join(ls: seq<string>, sep: char): string {
    if ls == [] then [] else if |ls| == 1 then ls[0] else ls[0] + [sep] + Join(ls[1..], sep)
  }

  /** The text of a file whose lines are ls, each followed by a newline. */
  function Unlines(ls: seq<string>): string {
    if ls == [] then [] else ls[0] + "\n" + Unlines(ls[1..])
  }

  lemma {:induction false} JoinThenNewline(ls: seq<string>)
    requires ls != []
    ensures Join(ls, '\n') + "\n" == Unlines(ls)
  {
    if |ls| > 1 {
      JoinThenNewline(ls[1..]);
    }
  }

  lemma {:induction false} UnlinesAppend(a: seq<string>, b: seq<string>)
    ensures Unlines(a + b) == Unlines(a) + Unlines(b)
  {
    if a == [] {
      assert a + b == b;
    } else {
      assert (a + b)[1..] == a[1..] + b;
      UnlinesAppend(a[1..], b);
    }
  }

  /** The successive results of readline() on a file holding t, without their newline,
      up to end of file: a final line without a newline still counts. */
  function SplitLines(t: string): seq<string>
    decreases |t|
  {
    if t == [] then []
    else
      var k := IndexOf(t, '\n');
      if k == |t| then [t] else [t[..k]] + SplitLines(t[k + 1..])
  }

  lemma {:induction false} SplitLinesNoNewline(t: string)
    ensures forall i :: 0 <= i < |SplitLines(t)| ==> '\n' !in SplitLines(t)[i]
    decreases |t|
  {
    if t != [] {
      var k := IndexOf(t, '\n');
      if k < |t| {
        SplitLinesNoNewline(t[k + 1..]);
      }
    }
  }

  /** Reading back a file written line by line gives back its lines. */
  lemma {:induction false} SplitUnlines(ls: seq<string>)
    requires forall i :: 0 <= i < |ls| ==> '\n' !in ls[i]
    ensures SplitLines(Unlines(ls)) == ls
  {
    if ls != [] {
      var t := Unlines(ls);
      var l := ls[0];
      assert t == l + "\n" + Unlines(ls[1..]);
      assert t[|l|] == '\n';
      var k := IndexOf(t, '\n');
      assert k == |l| by {
        assert forall j :: 0 <= j < |l| ==> t[j] == l[j];
      }
      assert t[..k] == l;
      assert t[k + 1..] == Unlines(ls[1..]);
      SplitUnlines(ls[1..]);
    }
  }

  function StripAll(ls: seq<string>): seq<string> {
    seq(|ls|, i requires 0 <= i < |ls| => Strip(ls[i]))
  }

  /** Lines without whitespace hold no newline and strip() leaves every one of them as
      it is. */
  lemma StripAllNoSpace(ls: seq<string>)
    requires forall i :: 0 <= i < |ls| ==> NoSpace(ls[i])
    ensures forall i :: 0 <= i < |ls| ==> '\n' !in ls[i]
    ensures StripAll(ls) == ls
  {
    forall i | 0 <= i < |ls|
      ensures '\n' !in ls[i] && StripAll(ls)[i] == ls[i]
    {
      NoSpaceStripped(ls[i]);
    }
  }

  lemma StripAllAppend(a: seq<string>, b: seq<string>)
    ensures StripAll(a + b) == StripAll(a) + StripAll(b)
  {
  }

  /** The lines `line = handle.readline().strip()` yields on a file holding t. */
  function ReadLines(t: string): (r: seq<string>)
    ensures |r| == |SplitLines(t)|
    ensures r == [] <==> t == []
  {
    StripAll(SplitLines(t))
  }

  /** Every line readline().strip() yields is trimmed and holds no newline. */
  predicate StrippedLines(lines: seq<string>) {
    forall i :: 0 <= i < |lines| ==> '\n' !in lines[i] && Trimmed(lines[i])
  }

  lemma ReadLinesAreStripped(t: string)
    ensures StrippedLines(ReadLines(t))
  {
    SplitLinesNoNewline(t);
    var ls := SplitLines(t);
    forall i | 0 <= i < |ls|
      ensures '\n' !in ReadLines(t)[i]
    {
      StripKeeps(ls[i]);
    }
  }

  /** s with every c removed. */
  function Without(s: string, c: char): (r: string)
    ensures c !in r
    ensures c !in s ==> r == s
  {
    if s == [] then [] else (if s[0] == c then [] else [s[0]]) + Without(s[1..], c)
  }

  lemma {:induction false} WithoutAppend(a: string, b: string, c: char)
    ensures Without(a + b, c) == Without(a, c) + Without(b, c)
  {
    if a == [] {
      assert a + b == b;
    } else {
      assert (a + b)[0] == a[0];
      assert (a + b)[1..] == a[1..] + b;
      WithoutAppend(a[1..], b, c);
    }
  }

  /** Removing the separators from sep.join(ls) gives ''.join(ls) when no element holds the
      separator. */
  lemma {:induction false} WithoutJoin(ls: seq<string>, sep: char)
    requires forall i :: 0 <= i < |ls| ==> sep !in ls[i]
    ensures Without(Join(ls, sep), sep) == Concat(ls)
  {
    if |ls| == 1 {
      assert Concat(ls[1..]) == [];
    } else if |ls| > 1 {
      WithoutAppend(ls[0] + [sep], Join(ls[1..], sep), sep);
      WithoutAppend(ls[0], [sep], sep);
      WithoutJoin(ls[1..], sep);
    }
  }

  /** s * n for a one-character string s. */
  function Repeat(c: char, n: nat): (r: string)
    ensures |r| == n
    ensures forall i :: 0 <= i < n ==> r[i] == c
  {
    if n == 0 then [] else [c] + Repeat(c, n - 1)
  }

  /** str(n): the decimal digits of n. */
  function NatToString(n: nat): (r: string)
    ensures r != []
    ensures forall i :: 0 <= i < |r| ==> '0' <= r[i] <= '9'
  {
    if n < 10 then [(48 + n) as char] else NatToString(n / 10) + [(48 + n % 10) as char]
  }
}
