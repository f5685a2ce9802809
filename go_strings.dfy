/** The functions of Go's `strings` package that the ARN parser calls (HasPrefix,
    Count, SplitN, Split and Join), and Index, on which Go builds SplitN, modelled on
    strings of characters. The parser only ever splits, counts and joins on a single
    ASCII character (':' or '/'), so every separator here is one `char`. */
module GoStrings {

  function Min(a: int, b: int): int
  {
    if a <= b then a else b
  }

  /** strings.HasPrefix: s begins with prefix. */
  predicate HasPrefix(s: string, prefix: string)
  {
    |prefix| <= |s| && s[..|prefix|] == prefix
  }

  /** HasPrefix agrees with the definition by concatenation. */
  lemma HasPrefixIff(s: string, prefix: string)
    ensures HasPrefix(s, prefix) <==> exists rest :: s == prefix + rest
  {
    if HasPrefix(s, prefix) {
      assert s == prefix + s[|prefix|..];
    }
  }

  /** A string begins with whatever is put in front of it. */
  lemma HasPrefixOf(prefix: string, rest: string)
    ensures HasPrefix(prefix + rest, prefix)
  {
    assert (prefix + rest)[..|prefix|] == prefix;
  }

  /** strings.Count for a one-character separator: how many times sep occurs in s. */
  function Count(s: string, sep: char): (n: nat)
    ensures n <= |s|
  {
    if s == [] then 0
    else Count(s[..|s| - 1], sep) + (if s[|s| - 1] == sep then 1 else 0)
  }

  /** sep is counted zero times exactly when it does not occur. */
  lemma {:induction false} CountZero(s: string, sep: char)
    ensures Count(s, sep) == 0 <==> sep !in s
  {
    if s != [] {
      assert s == s[..|s| - 1] + [s[|s| - 1]];
      CountZero(s[..|s| - 1], sep);
    }
  }

  /** Counting distributes over concatenation. */
  lemma {:induction false} CountConcat(a: string, b: string, sep: char)
    ensures Count(a + b, sep) == Count(a, sep) + Count(b, sep)
  {
    if b == [] {
      assert a + b == a;
    } else {
      assert (a + b)[..|a + b| - 1] == a + b[..|b| - 1];
      CountConcat(a, b[..|b| - 1], sep);
    }
  }

  /** strings.Index for a one-character separator: the position of the first
      occurrence of sep in s, or -1 when there is none. */
  function Index(s: string, sep: char): (i: int)
    ensures -1 <= i < |s|
    ensures i == -1 <==> sep !in s
    ensures 0 <= i ==> s[i] == sep && sep !in s[..i]
  {
    if s == [] then -1
    else
      var j := Index(s[..|s| - 1], sep);
      assert s == s[..|s| - 1] + [s[|s| - 1]];
      if 0 <= j then
        assert s[..j] == s[..|s| - 1][..j];
        j
      else if s[|s| - 1] == sep then |s| - 1
      else -1
  }

  /** The first occurrence of sep in a + [sep] + b is the one after a, when a has none. */
  lemma IndexAfter(a: string, b: string, sep: char)
    requires sep !in a
    ensures Index(a + [sep] + b, sep) == |a|
  {
    var s := a + [sep] + b;
    assert s[|a|] == sep;
    assert forall j :: 0 <= j < |a| ==> s[j] == a[j];
  }

  /** A string is the part before position m, the character at m and the part after it. */
  lemma CutAt(s: string, m: nat)
    requires m < |s|
    ensures s == s[..m] + [s[m]] + s[m + 1..]
  {
  }

  /** Cutting s at the first occurrence of sep leaves one occurrence fewer after the cut. */
  lemma CountAfterFirst(s: string, sep: char, m: nat)
    requires m < |s| && s[m] == sep && sep !in s[..m]
    ensures Count(s, sep) == 1 + Count(s[m + 1..], sep)
  {
    CutAt(s, m);
    CountZero(s[..m], sep);
    assert s == s[..m] + ([sep] + s[m + 1..]);
    CountConcat(s[..m], [sep] + s[m + 1..], sep);
    CountConcat([sep], s[m + 1..], sep);
  }

  /** strings.SplitN: the pieces of s between occurrences of sep. With n > 0 there are
      at most n pieces and the last one keeps the unsplit remainder; with n == 0 there
      are none; with n < 0 every occurrence splits. */
  function SplitN(s: string, sep: char, n: int): (parts: seq<string>)
    ensures n == 0 ==> parts == []
    ensures n < 0 ==> |parts| == Count(s, sep) + 1
    ensures n > 0 ==> |parts| == Min(n, Count(s, sep) + 1)
    ensures n < 0 ==> sep !in parts[|parts| - 1]
    decreases |s|
  {
    if n == 0 then []
    else
      var m := Index(s, sep);
      CountZero(s, sep);
      if n == 1 || m < 0 then [s]
      else
        CountAfterFirst(s, sep, m);
        [s[..m]] + SplitN(s[m + 1..], sep, if n < 0 then n else n - 1)
  }

  /** Unfolding helper, one step of SplitN's definition: SplitN cuts at the first
      occurrence of sep while the limit allows another piece. */
  lemma SplitNCons(s: string, sep: char, n: int)
    requires n != 0 && n != 1 && Index(s, sep) >= 0
    ensures var m := Index(s, sep);
      SplitN(s, sep, n) == [s[..m]] + SplitN(s[m + 1..], sep, if n < 0 then n else n - 1)
  {
  }

  /** Unfolding helper, the last step of SplitN's definition: SplitN keeps s whole
      when the limit is one piece or sep does not occur. */
  lemma SplitNWhole(s: string, sep: char, n: int)
    requires n == 1 || (n != 0 && Index(s, sep) < 0)
    ensures SplitN(s, sep, n) == [s]
  {
  }

  /** Every piece of SplitN but the last is free of sep. */
  lemma {:induction false} SplitNPieces(s: string, sep: char, n: int)
    ensures var parts := SplitN(s, sep, n);
      forall k :: 0 <= k < |parts| - 1 ==> sep !in parts[k]
    decreases |s|
  {
    var m := Index(s, sep);
    if n == 0 {
    } else if n != 1 && m >= 0 {
      var n' := if n < 0 then n else n - 1;
      SplitNCons(s, sep, n);
      SplitNPieces(s[m + 1..], sep, n');
      FreeOfCons(s[..m], SplitN(s[m + 1..], sep, n'), sep);
    } else {
      SplitNWhole(s, sep, n);
    }
  }

  lemma FreeOfCons(head: string, rest: seq<string>, sep: char)
    requires sep !in head
    requires forall k :: 0 <= k < |rest| - 1 ==> sep !in rest[k]
    ensures forall k :: 0 <= k < |[head] + rest| - 1 ==> sep !in ([head] + rest)[k]
  {
    var parts := [head] + rest;
    forall k | 0 <= k < |parts| - 1
      ensures sep !in parts[k]
    {
      if k > 0 {
        assert parts[k] == rest[k - 1];
      }
    }
  }

  /** strings.Split: the pieces of s between every occurrence of sep. */
  function Split(s: string, sep: char): (parts: seq<string>)
    ensures |parts| == Count(s, sep) + 1
  {
    SplitN(s, sep, -1)
  }

  /** With no limit, no piece of SplitN contains sep. */
  lemma SplitNFree(s: string, sep: char)
    ensures forall k :: 0 <= k < |SplitN(s, sep, -1)| ==> sep !in SplitN(s, sep, -1)[k]
  {
    SplitNPieces(s, sep, -1);
  }

  /** No piece of Split contains sep. */
  lemma SplitFree(s: string, sep: char)
    ensures forall k :: 0 <= k < |Split(s, sep)| ==> sep !in Split(s, sep)[k]
  {
    SplitNFree(s, sep);
  }

  /** strings.Join: the elements of parts with sep between consecutive ones. */
  function Join(parts: seq<string>, sep: char): string
  {
    if |parts| == 0 then ""
    else if |parts| == 1 then parts[0]
    else parts[0] + [sep] + Join(parts[1..], sep)
  }

  /** A single piece joins to itself. */
  lemma JoinSingle(s: string, sep: char)
    ensures Join([s], sep) == s
  {
  }

  /** Joining a piece in front of at least one other puts a separator after it. */
  lemma JoinCons(head: string, rest: seq<string>, sep: char)
    requires |rest| >= 1
    ensures Join([head] + rest, sep) == head + [sep] + Join(rest, sep)
  {
    assert ([head] + rest)[1..] == rest;
  }

  /** Joining the pieces of SplitN puts the string back together. */
  lemma {:induction false} JoinSplitN(s: string, sep: char, n: int)
    requires n != 0
    ensures Join(SplitN(s, sep, n), sep) == s
    decreases |s|
  {
    var m := Index(s, sep);
    if n == 1 || m < 0 {
      SplitNWhole(s, sep, n);
      JoinSingle(s, sep);
    } else {
      var n' := if n < 0 then n else n - 1;
      var rest := SplitN(s[m + 1..], sep, n');
      SplitNCons(s, sep, n);
      JoinSplitN(s[m + 1..], sep, n');
      JoinCons(s[..m], rest, sep);
      CutAt(s, m);
    }
  }

  /** Joining the pieces of Split puts the string back together. */
  lemma JoinSplit(s: string, sep: char)
    ensures Join(Split(s, sep), sep) == s
  {
    JoinSplitN(s, sep, -1);
  }

  /** SplitN cuts a piece free of sep off the front of a + [sep] + b. */
  lemma SplitNAfter(a: string, b: string, sep: char, n: int)
    requires sep !in a && n != 0 && n != 1
    ensures SplitN(a + [sep] + b, sep, n) == [a] + SplitN(b, sep, if n < 0 then n else n - 1)
  {
    var s := a + [sep] + b;
    IndexAfter(a, b, sep);
    assert s[..|a|] == a;
    assert s[|a| + 1..] == b;
    SplitNCons(s, sep, n);
  }

  /** Split undoes Join when no piece contains the separator. */
  lemma {:induction false} SplitJoin(parts: seq<string>, sep: char)
    requires |parts| >= 1
    requires forall k :: 0 <= k < |parts| ==> sep !in parts[k]
    ensures Split(Join(parts, sep), sep) == parts
  {
    if |parts| > 1 {
      var rest := parts[1..];
      assert parts == [parts[0]] + rest;
      JoinCons(parts[0], rest, sep);
      SplitNAfter(parts[0], Join(rest, sep), sep, -1);
      SplitJoin(rest, sep);
    }
  }

  /** SplitN with limit n undoes Join of exactly n pieces when none but the last
      contains the separator. */
  lemma {:induction false} SplitNJoin(parts: seq<string>, sep: char, n: int)
    requires n > 0 && |parts| == n
    requires forall k :: 0 <= k < |parts| - 1 ==> sep !in parts[k]
    ensures SplitN(Join(parts, sep), sep, n) == parts
  {
    if n > 1 {
      var rest := parts[1..];
      assert parts == [parts[0]] + rest;
      JoinCons(parts[0], rest, sep);
      SplitNAfter(parts[0], Join(rest, sep), sep, n);
      SplitNJoin(rest, sep, n - 1);
    }
  }

  /** Joining one more piece appends the separator and that piece. */
  lemma {:induction false} JoinSnoc(parts: seq<string>, last: string, sep: char)
    requires |parts| >= 1
    ensures Join(parts + [last], sep) == Join(parts, sep) + [sep] + last
  {
    if |parts| > 1 {
      assert (parts + [last])[1..] == parts[1..] + [last];
      JoinSnoc(parts[1..], last, sep);
    }
  }

  /** A join of three or more pieces: the first piece, the joined middle, the last piece. */
  lemma JoinEnds(parts: seq<string>, sep: char)
    requires |parts| >= 3
    ensures Join(parts, sep)
         == parts[0] + [sep] + Join(parts[1..|parts| - 1], sep) + [sep] + parts[|parts| - 1]
  {
    var middle := parts[1..|parts| - 1];
    assert parts[1..] == middle + [parts[|parts| - 1]];
    JoinSnoc(middle, parts[|parts| - 1], sep);
  }

  /** Two pieces join with one separator between them. */
  lemma JoinTwo(parts: seq<string>, sep: char)
    requires |parts| == 2
    ensures Join(parts, sep) == parts[0] + [sep] + parts[1]
  {
    assert parts == [parts[0]] + [parts[1]];
    JoinCons(parts[0], [parts[1]], sep);
  }

  /** Unfolding helper, one step of Join's definition: a join of two or more pieces
      is the first piece, a separator and the rest joined. */
  lemma JoinTail(parts: seq<string>, sep: char)
    requires |parts| >= 2
    ensures Join(parts, sep) == parts[0] + [sep] + Join(parts[1..], sep)
  {
  }

  /** Pieces free of sep stay so with one more such piece at the end. */
  lemma FreeOfSnoc(parts: seq<string>, last: string, sep: char)
    requires sep !in last
    requires forall k :: 0 <= k < |parts| ==> sep !in parts[k]
    ensures forall k :: 0 <= k < |parts + [last]| ==> sep !in (parts + [last])[k]
  {
  }

  /** A head and a list of pieces, all free of sep, make a list free of sep. */
  lemma FreeOfAll(head: string, rest: seq<string>, sep: char)
    requires sep !in head
    requires forall k :: 0 <= k < |rest| ==> sep !in rest[k]
    ensures forall k :: 0 <= k < |[head] + rest| ==> sep !in ([head] + rest)[k]
  {
    var parts := [head] + rest;
    forall k | 0 <= k < |parts|
      ensures sep !in parts[k]
    {
      if k > 0 {
        assert parts[k] == rest[k - 1];
      }
    }
  }

  /** Sequence bookkeeping for the proofs above: concatenation regroups freely. */
  lemma AppendAssoc(a: string, b: string, c: string)
    ensures a + (b + c) == a + b + c
  {
  }

  /** Sequence bookkeeping for the proofs above: the pieces strictly between a first
      and a last piece. */
  lemma Between(first: string, middle: seq<string>, last: string)
    ensures ([first] + middle + [last])[1..|middle| + 1] == middle
  {
  }
}
