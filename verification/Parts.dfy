/** Texts joined by a separator, and split at it: lists of names in one field, lines in a
    file. */
module Parts {
  import opened BackupText

  function Join(parts: seq<Text>, sep: Byte): Text {
    if parts == [] then []
    else if |parts| == 1 then parts[0]
    else parts[0] + [sep] + Join(parts[1..], sep)
  }

  /** Go's strings.Split: never empty, and one part when the separator does not occur. */
  function Split(s: Text, sep: Byte): (parts: seq<Text>)
    ensures parts != []
  {
    if s == [] then [[]]
    else
      var rest := Split(s[1..], sep);
      if s[0] == sep then [[]] + rest else [[s[0]] + rest[0]] + rest[1..]
  }

  predicate Free(parts: seq<Text>, sep: Byte) {
    forall i :: 0 <= i < |parts| ==> sep !in parts[i]
  }

  lemma {:induction false} SplitOne(s: Text, rest: Text, sep: Byte)
    requires sep !in s
    ensures Split(s, sep) == [s]
    ensures Split(s + [sep] + rest, sep) == [s] + Split(rest, sep)
  {
    if s == [] {
      assert s + [sep] + rest == [sep] + rest;
      assert ([sep] + rest)[1..] == rest;
    } else {
      SplitOne(s[1..], rest, sep);
      assert s == [s[0]] + s[1..];
      assert (s + [sep] + rest)[1..] == s[1..] + [sep] + rest;
    }
  }

  lemma {:induction false} SplitJoin(parts: seq<Text>, sep: Byte)
    requires parts != [] && Free(parts, sep)
    ensures Split(Join(parts, sep), sep) == parts
  {
    if |parts| == 1 {
      SplitOne(parts[0], [], sep);
    } else {
      SplitJoin(parts[1..], sep);
      SplitOne(parts[0], Join(parts[1..], sep), sep);
      assert parts == [parts[0]] + parts[1..];
    }
  }

  /** Comparing joined lists compares the lists, when no name holds the separator and the
      list has a first name to show. */
  lemma JoinInjective(a: seq<Text>, b: seq<Text>, sep: Byte)
    requires Free(a, sep) && Free(b, sep)
    requires b != [] && b[0] != []
    requires Join(a, sep) == Join(b, sep)
    ensures a == b
  {
    SplitJoin(b, sep);
    if a != [] {
      SplitJoin(a, sep);
    }
  }

  /** The same for any two lists but the one whose only name is empty, which looks like none. */
  lemma JoinTells(a: seq<Text>, b: seq<Text>, sep: Byte)
    requires Free(a, sep) && Free(b, sep) && a != [[]] && b != [[]]
    requires Join(a, sep) == Join(b, sep)
    ensures a == b
  {
    if a != [] {
      SplitJoin(a, sep);
    }
    if b != [] {
      SplitJoin(b, sep);
    }
    assert Split([], sep) == [[]];
  }

  function Prepend(c: Byte, parts: seq<Text>, sep: Byte): seq<Text>
    requires parts != []
  {
    if c == sep then [[]] + parts else [[c] + parts[0]] + parts[1..]
  }

  lemma SplitStep(c: Byte, s: Text, sep: Byte)
    ensures Split([c] + s, sep) == Prepend(c, Split(s, sep), sep)
  {
    assert ([c] + s)[1..] == s;
  }

  lemma PrependFront(c: Byte, first: seq<Text>, second: seq<Text>, sep: Byte)
    requires first != []
    ensures Prepend(c, first + second, sep) == Prepend(c, first, sep) + second
  {
    assert (first + second)[1..] == first[1..] + second;
  }

  lemma {:induction false} SplitTwo(a: Text, b: Text, sep: Byte)
    ensures Split(a + [sep] + b, sep) == Split(a, sep) + Split(b, sep)
  {
    if a == [] {
      assert a + [sep] + b == [sep] + b;
      SplitStep(sep, b, sep);
    } else {
      SplitTwo(a[1..], b, sep);
      assert a + [sep] + b == [a[0]] + (a[1..] + [sep] + b);
      assert a == [a[0]] + a[1..];
      SplitStep(a[0], a[1..] + [sep] + b, sep);
      SplitStep(a[0], a[1..], sep);
      PrependFront(a[0], Split(a[1..], sep), Split(b, sep), sep);
    }
  }

  lemma {:induction false} OnePart(a: Text, sep: Byte)
    ensures |Split(a, sep)| == 1 <==> sep !in a
  {
    if a != [] {
      OnePart(a[1..], sep);
      assert a == [a[0]] + a[1..];
      SplitStep(a[0], a[1..], sep);
    }
  }

  /** A joined list splits into as many parts as it was made of exactly when none of them
      held the separator. */
  lemma {:induction false} SplitJoinCount(parts: seq<Text>, sep: Byte)
    requires parts != []
    ensures |Split(Join(parts, sep), sep)| >= |parts|
    ensures |Split(Join(parts, sep), sep)| == |parts| <==> Free(parts, sep)
  {
    OnePart(parts[0], sep);
    if |parts| == 1 {
    } else {
      SplitJoinCount(parts[1..], sep);
      SplitTwo(parts[0], Join(parts[1..], sep), sep);
      assert Free(parts, sep) <==> sep !in parts[0] && Free(parts[1..], sep) by {
        assert forall i :: 1 <= i < |parts| ==> parts[i] == parts[1..][i - 1];
      }
    }
  }

  lemma {:induction false} JoinSplit(s: Text, sep: Byte)
    ensures Join(Split(s, sep), sep) == s
    ensures Free(Split(s, sep), sep)
  {
    if s != [] {
      JoinSplit(s[1..], sep);
      var rest := Split(s[1..], sep);
      assert s == [s[0]] + s[1..];
      if s[0] == sep {
        JoinEmptyFirst(rest, sep);
      } else {
        JoinLongerFirst(s[0], rest, sep);
      }
    }
  }

  lemma JoinEmptyFirst(rest: seq<Text>, sep: Byte)
    requires rest != []
    ensures Join([[]] + rest, sep) == [sep] + Join(rest, sep)
  {
    assert ([[]] + rest)[1..] == rest;
    assert [] + [sep] + Join(rest, sep) == [sep] + Join(rest, sep);
  }

  lemma JoinLongerFirst(c: Byte, rest: seq<Text>, sep: Byte)
    requires rest != []
    ensures Join([[c] + rest[0]] + rest[1..], sep) == [c] + Join(rest, sep)
  {
    var longer := [[c] + rest[0]] + rest[1..];
    assert longer[1..] == rest[1..];
    if |rest| > 1 {
      assert [c] + rest[0] + [sep] + Join(rest[1..], sep) == [c] + (rest[0] + [sep] + Join(rest[1..], sep));
    }
  }
}
