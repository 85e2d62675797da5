/** Masking the bodies of YAML block scalars under a secret's name (block scalars, section 8.1
    of YAML 1.2.2), line by line in place.

    Which text matches the pattern of a secret header is a parameter, used as the program
    uses it: on the whole content first, then on each line. */
module BlockScalars {
  import opened Common
  import opened BackupText
  import opened Parts

  const CR: Byte := 0x0D
  const LF: Byte := 0x0A
  const REDACTED: Text := Ascii("[REDACTED]")

  type Pattern = Text -> bool

  // ---- one line ----

  predicate IsSpaceRune(rune: int) {
    || 0x09 <= rune <= 0x0D || rune == 0x20 || rune == 0x85 || rune == 0xA0 || rune == 0x1680
    || 0x2000 <= rune <= 0x200A || rune == 0x2028 || rune == 0x2029 || rune == 0x202F || rune == 0x205F || rune == 0x3000
  }

  /** Nothing but white space. A byte that is not part of a character is not white space. */
  predicate Blank(s: Text) {
    s == [] || (Decode(s).Some? && IsSpaceRune(Decode(s).value.0) && Blank(s[Decode(s).value.1..]))
  }

  function SplitReturn(line: Text): (r: (Text, Text))
    ensures r.0 + r.1 == line
    ensures r.1 == if line != [] && line[|line| - 1] == 0x0D then [0x0D] else []
  {
    if line != [] && line[|line| - 1] == CR then (line[..|line| - 1], [CR]) else (line, [])
  }

  function Body(line: Text): Text { SplitReturn(line).0 }

  function Indent(s: Text): (n: nat)
    ensures n <= |s|
  {
    if s != [] && (s[0] == 0x20 || s[0] == 0x09) then 1 + Indent(s[1..]) else 0
  }

  function Depth(line: Text): nat { Indent(Body(line)) }

  /** The line with its content gone: indentation and carriage return stay. */
  function Redacted(line: Text): Text {
    Body(line)[..Depth(line)] + REDACTED + SplitReturn(line).1
  }

  predicate IsHeader(secret: Pattern, line: Text) {
    secret(Body(line))
  }

  // ---- which lines are the body of a secret ----

  /** The line is no end to a block opened at `depth`. */
  predicate GoesOn(depth: nat, line: Text) {
    Blank(Body(line)) || Depth(line) > depth
  }

  /** Every line after `h` up to `j` goes on with the block that `h` opens. */
  predicate Reaches(lines: seq<Text>, h: nat, j: nat)
    requires h < j < |lines|
  {
    forall k :: h < k <= j ==> GoesOn(Depth(lines[h]), lines[k])
  }

  /** A line is part of a secret's value when some secret header before it reaches it and
      there is something on it. */
  ghost predicate Covered(secret: Pattern, lines: seq<Text>, j: nat)
    requires j < |lines|
  {
    !Blank(Body(lines[j])) && exists h :: 0 <= h < j && IsHeader(secret, lines[h]) && Reaches(lines, h, j)
  }

  ghost function MaskedLine(secret: Pattern, lines: seq<Text>, j: nat): Text
    requires j < |lines|
  {
    if Covered(secret, lines, j) then Redacted(lines[j]) else lines[j]
  }

  ghost function MaskedLines(secret: Pattern, lines: seq<Text>): (r: seq<Text>)
    ensures |r| == |lines|
  {
    seq(|lines|, j requires 0 <= j < |lines| => MaskedLine(secret, lines, j))
  }

  // ---- the two loops ----

  /** Every secret header before `index` has been brought to an end. */
  ghost predicate Settled(secret: Pattern, lines: seq<Text>, index: nat)
    requires index <= |lines|
  {
    index == |lines|
    || forall h :: 0 <= h < index && IsHeader(secret, lines[h]) ==> exists k :: h < k <= index && !GoesOn(Depth(lines[h]), lines[k])
  }

  lemma NotCovered(secret: Pattern, lines: seq<Text>, index: nat)
    requires index < |lines| && Settled(secret, lines, index)
    ensures !Covered(secret, lines, index)
    ensures !IsHeader(secret, lines[index]) ==> Settled(secret, lines, index + 1)
  {
    if index + 1 < |lines| && !IsHeader(secret, lines[index]) {
      forall h | 0 <= h < index + 1 && IsHeader(secret, lines[h])
        ensures exists k :: h < k <= index + 1 && !GoesOn(Depth(lines[h]), lines[k])
      {
        var k :| h < k <= index && !GoesOn(Depth(lines[h]), lines[k]);
      }
    }
  }

  /** A block that ends at `end` also ends every block opened inside it. */
  lemma BlockSettles(secret: Pattern, lines: seq<Text>, index: nat, end: nat)
    requires index < end <= |lines| && Settled(secret, lines, index)
    requires forall k :: index < k < end ==> GoesOn(Depth(lines[index]), lines[k])
    requires forall k :: index < k < end && IsHeader(secret, lines[k]) ==> !Blank(Body(lines[k]))
    requires end < |lines| ==> !GoesOn(Depth(lines[index]), lines[end])
    ensures Settled(secret, lines, end)
  {
    if end < |lines| {
      forall h | 0 <= h < end && IsHeader(secret, lines[h])
        ensures exists k :: h < k <= end && !GoesOn(Depth(lines[h]), lines[k])
      {
        if h < index {
          var k :| h < k <= index && !GoesOn(Depth(lines[h]), lines[k]);
        } else {
          assert !GoesOn(Depth(lines[h]), lines[end]);
        }
      }
    }
  }

  ghost predicate SomeCovered(secret: Pattern, lines: seq<Text>, from: nat, to: nat)
    requires to <= |lines|
  {
    exists j :: from <= j < to && Covered(secret, lines, j)
  }

  lemma OneMoreCovered(secret: Pattern, lines: seq<Text>, from: nat, to: nat)
    requires from <= to < |lines|
    ensures SomeCovered(secret, lines, from, to + 1) <==> SomeCovered(secret, lines, from, to) || Covered(secret, lines, to)
  {
  }

  lemma MoreCovered(secret: Pattern, lines: seq<Text>, from: nat, middle: nat, to: nat)
    requires from <= middle <= to <= |lines|
    ensures SomeCovered(secret, lines, from, to) <==>
      SomeCovered(secret, lines, from, middle) || SomeCovered(secret, lines, middle, to)
  {
  }

  /** The pattern wants something on the line. */
  ghost predicate HeadersShow(secret: Pattern) {
    forall line :: IsHeader(secret, line) ==> !Blank(Body(line))
  }

  /** A line that goes on with the block of the header at `index`. */
  lemma InBlock(secret: Pattern, lines: seq<Text>, index: nat, end: nat)
    requires index < end < |lines| && IsHeader(secret, lines[index])
    requires forall k :: index < k <= end ==> GoesOn(Depth(lines[index]), lines[k])
    ensures Covered(secret, lines, end) <==> !Blank(Body(lines[end]))
  {
    assert Reaches(lines, index, end);
  }

  /** What all the lines are to become. */
  ghost predicate IsGoal(secret: Pattern, lines: seq<Text>, goal: seq<Text>) {
    |goal| == |lines| && forall j :: 0 <= j < |lines| ==> goal[j] == MaskedLine(secret, lines, j)
  }

  lemma TheGoal(secret: Pattern, lines: seq<Text>)
    ensures IsGoal(secret, lines, MaskedLines(secret, lines))
  {
  }

  /** `a` holds `goal` up to `n` and still `lines` from there on. */
  ghost predicate DoneTo(a: array<Text>, goal: seq<Text>, lines: seq<Text>, n: nat)
    requires |goal| == |lines|
    reads a
  {
    a.Length == |lines| && n <= |lines| && a[..n] == goal[..n] && a[n..] == lines[n..]
  }

  lemma OneMoreDone(a: array<Text>, goal: seq<Text>, lines: seq<Text>, n: nat)
    requires |goal| == |lines| && n < |lines| && a.Length == |lines|
    requires a[..n] == goal[..n] && a[n] == goal[n] && a[n + 1..] == lines[n + 1..]
    ensures DoneTo(a, goal, lines, n + 1)
  {
    assert a[..n + 1] == a[..n] + [a[n]];
    assert goal[..n + 1] == goal[..n] + [goal[n]];
  }

  /** One line of a block: masked when there is something on it. */
  method MaskLine(a: array<Text>, end: nat, ghost goal: seq<Text>, ghost lines: seq<Text>) returns (hit: bool)
    requires |goal| == |lines| && DoneTo(a, goal, lines, end) && end < |lines|
    requires goal[end] == if Blank(Body(lines[end])) then lines[end] else Redacted(lines[end])
    modifies a
    ensures DoneTo(a, goal, lines, end + 1)
    ensures hit <==> !Blank(Body(lines[end]))
  {
    assert a[end] == a[end..][0] == lines[end];
    assert a[end + 1..] == a[end..][1..];
    var (body, carriage) := SplitReturn(a[end]);
    hit := !Blank(body);
    ghost var front := a[..end];
    if hit {
      a[end] := body[..Indent(body)] + REDACTED + carriage;
    }
    assert a[..end] == front;
    assert lines[end + 1..] == lines[end..][1..];
    OneMoreDone(a, goal, lines, end);
  }

  /** A header itself is no part of a block. */
  lemma HeaderStays(secret: Pattern, a: array<Text>, index: nat, goal: seq<Text>, lines: seq<Text>)
    requires |goal| == |lines| && DoneTo(a, goal, lines, index) && index < |lines|
    requires IsGoal(secret, lines, goal) && Settled(secret, lines, index)
    ensures a[index] == lines[index] && DoneTo(a, goal, lines, index + 1) && !SomeCovered(secret, lines, index, index + 1)
  {
    NotCovered(secret, lines, index);
    assert a[index] == a[index..][0] == lines[index];
    assert a[index + 1..] == a[index..][1..];
    assert lines[index + 1..] == lines[index..][1..];
    OneMoreDone(a, goal, lines, index);
  }

  /** The lines between go on with the block of the header at `index`. */
  predicate BlockTo(lines: seq<Text>, index: nat, end: nat)
    requires index < end <= |lines|
  {
    forall k :: index < k < end ==> GoesOn(Depth(lines[index]), lines[k])
  }

  lemma EndOfBlock(secret: Pattern, lines: seq<Text>, index: nat, end: nat)
    requires index < end <= |lines| && Settled(secret, lines, index) && HeadersShow(secret) && BlockTo(lines, index, end)
    requires end < |lines| ==> !GoesOn(Depth(lines[index]), lines[end])
    ensures Settled(secret, lines, end)
  {
    BlockSettles(secret, lines, index, end);
  }

  lemma StillThere(a: array<Text>, goal: seq<Text>, lines: seq<Text>, n: nat)
    requires |goal| == |lines| && DoneTo(a, goal, lines, n) && n < |lines|
    ensures a[n] == lines[n]
  {
    assert a[n] == a[n..][0] == lines[n];
  }

  /** A line that goes on with the block of the header at `index`. */
  method MaskInBlock(secret: Pattern, a: array<Text>, ghost index: nat, end: nat, ghost goal: seq<Text>, ghost lines: seq<Text>)
    returns (hit: bool)
    requires |goal| == |lines| && DoneTo(a, goal, lines, end) && index < end < |lines|
    requires IsGoal(secret, lines, goal) && IsHeader(secret, lines[index])
    requires BlockTo(lines, index, end) && GoesOn(Depth(lines[index]), lines[end])
    modifies a
    ensures DoneTo(a, goal, lines, end + 1) && BlockTo(lines, index, end + 1)
    ensures SomeCovered(secret, lines, index, end + 1) <==> SomeCovered(secret, lines, index, end) || hit
  {
    InBlock(secret, lines, index, end);
    OneMoreCovered(secret, lines, index, end);
    assert goal[end] == MaskedLine(secret, lines, end);
    hit := MaskLine(a, end, goal, lines);
  }

  /** The block of the header at `index`, done up to `end`. */
  ghost predicate BlockDone(secret: Pattern, a: array<Text>, index: nat, end: nat, masked: bool, goal: seq<Text>, lines: seq<Text>)
    reads a
  {
    && IsGoal(secret, lines, goal) && index < end <= |lines| && IsHeader(secret, lines[index])
    && DoneTo(a, goal, lines, end) && BlockTo(lines, index, end)
    && (masked <==> SomeCovered(secret, lines, index, end))
  }

  lemma BlockStarts(secret: Pattern, a: array<Text>, index: nat, goal: seq<Text>, lines: seq<Text>)
    requires IsGoal(secret, lines, goal) && DoneTo(a, goal, lines, index) && index < |lines|
    requires Settled(secret, lines, index) && IsHeader(secret, lines[index])
    ensures a[index] == lines[index] && BlockDone(secret, a, index, index + 1, false, goal, lines)
  {
    HeaderStays(secret, a, index, goal, lines);
  }

  lemma BlockEnds(secret: Pattern, a: array<Text>, index: nat, end: nat, masked: bool, goal: seq<Text>, lines: seq<Text>)
    requires BlockDone(secret, a, index, end, masked, goal, lines) && Settled(secret, lines, index) && HeadersShow(secret)
    requires end < |lines| ==> !GoesOn(Depth(lines[index]), lines[end])
    ensures Settled(secret, lines, end) && DoneTo(a, goal, lines, end)
    ensures masked <==> SomeCovered(secret, lines, index, end)
  {
    EndOfBlock(secret, lines, index, end);
  }

  /** The next line, if it goes on with the block. */
  method BlockNext(secret: Pattern, a: array<Text>, ghost index: nat, depth: nat, end: nat, masked: bool, ghost goal: seq<Text>,
                   ghost lines: seq<Text>)
    returns (on: bool, more: bool)
    requires BlockDone(secret, a, index, end, masked, goal, lines) && end < |lines| && depth == Depth(lines[index])
    modifies a
    ensures on ==> BlockDone(secret, a, index, end + 1, more, goal, lines)
    ensures !on ==> BlockDone(secret, a, index, end, more, goal, lines) && !GoesOn(Depth(lines[index]), lines[end])
  {
    StillThere(a, goal, lines, end);
    on, more := GoesOn(depth, a[end]), masked;
    if on {
      var hit := MaskInBlock(secret, a, index, end, goal, lines);
      more := masked || hit;
    }
  }

  /** The lines that a header at `index` masks. */
  method MaskBlock(secret: Pattern, a: array<Text>, index: nat, ghost goal: seq<Text>, ghost lines: seq<Text>)
    returns (end: nat, masked: bool)
    requires IsGoal(secret, lines, goal) && DoneTo(a, goal, lines, index) && index < |lines|
    requires Settled(secret, lines, index) && IsHeader(secret, lines[index]) && HeadersShow(secret)
    modifies a
    ensures index < end <= |lines| && Settled(secret, lines, end)
    ensures DoneTo(a, goal, lines, end)
    ensures masked <==> SomeCovered(secret, lines, index, end)
  {
    BlockStarts(secret, a, index, goal, lines);
    var depth := Depth(a[index]);
    end, masked := index + 1, false;
    while end < a.Length
      invariant index < end <= |lines| == a.Length
      invariant BlockDone(secret, a, index, end, masked, goal, lines)
    {
      var on;
      on, masked := BlockNext(secret, a, index, depth, end, masked, goal, lines);
      if !on {
        break;
      }
      end := end + 1;
    }
    BlockEnds(secret, a, index, end, masked, goal, lines);
  }

  /** A line that no block reaches and that opens none stays. */
  lemma PassedOver(secret: Pattern, a: array<Text>, index: nat, goal: seq<Text>, lines: seq<Text>)
    requires |goal| == |lines| && DoneTo(a, goal, lines, index) && index < |lines|
    requires IsGoal(secret, lines, goal)
    requires Settled(secret, lines, index) && !IsHeader(secret, lines[index])
    ensures DoneTo(a, goal, lines, index + 1) && Settled(secret, lines, index + 1)
    ensures !Covered(secret, lines, index)
  {
    NotCovered(secret, lines, index);
    assert a[index] == a[index..][0] == lines[index];
    assert a[index + 1..] == a[index..][1..] && lines[index + 1..] == lines[index..][1..];
    OneMoreDone(a, goal, lines, index);
  }

  lemma DoneToIsDone(a: array<Text>, goal: seq<Text>, lines: seq<Text>)
    requires |goal| == |lines| && DoneTo(a, goal, lines, |lines|)
    ensures a[..] == goal
  {
    assert a[..] == a[..|lines|] && goal == goal[..|lines|];
  }

  /** From `index` on to the next line that has not been looked at. */
  method MaskOn(secret: Pattern, a: array<Text>, index: nat, ghost goal: seq<Text>, ghost lines: seq<Text>)
    returns (next: nat, masked: bool)
    requires |goal| == |lines| && DoneTo(a, goal, lines, index) && index < |lines|
    requires IsGoal(secret, lines, goal)
    requires Settled(secret, lines, index) && HeadersShow(secret)
    modifies a
    ensures index < next <= |lines| && Settled(secret, lines, next)
    ensures DoneTo(a, goal, lines, next)
    ensures masked <==> SomeCovered(secret, lines, index, next)
  {
    assert a[index] == a[index..][0] == lines[index];
    if IsHeader(secret, a[index]) {
      next, masked := MaskBlock(secret, a, index, goal, lines);
    } else {
      PassedOver(secret, a, index, goal, lines);
      next, masked := index + 1, false;
    }
  }

  method MaskLines(secret: Pattern, a: array<Text>) returns (masked: bool)
    requires HeadersShow(secret)
    modifies a
    ensures a[..] == MaskedLines(secret, old(a[..]))
    ensures masked <==> SomeCovered(secret, old(a[..]), 0, a.Length)
  {
    ghost var lines := a[..];
    ghost var goal := MaskedLines(secret, lines);
    TheGoal(secret, lines);
    masked := false;
    var index := 0;
    while index < a.Length
      invariant 0 <= index <= |lines| && Settled(secret, lines, index)
      invariant DoneTo(a, goal, lines, index)
      invariant masked <==> SomeCovered(secret, lines, 0, index)
    {
      ghost var from := index;
      var some;
      index, some := MaskOn(secret, a, index, goal, lines);
      MoreCovered(secret, lines, 0, from, index);
      masked := masked || some;
    }
    DoneToIsDone(a, goal, lines);
  }

  // ---- what masking keeps ----

  lemma RedactedParts(line: Text)
    ensures Body(Redacted(line)) == Body(line)[..Depth(line)] + REDACTED
    ensures SplitReturn(Redacted(line)).1 == SplitReturn(line).1
  {
    var kept := Body(line)[..Depth(line)] + REDACTED;
    assert kept[|kept| - 1] == 0x5D;
    assert Redacted(line) == kept + SplitReturn(line).1;
    if SplitReturn(line).1 == [] {
      assert Redacted(line) == kept;
    } else {
      assert Redacted(line)[..|kept|] == kept;
    }
  }

  /** A masked line keeps its indentation and its carriage return, and masking it again is
      masking it once. */
  lemma RedactedKeeps(line: Text)
    requires !Blank(Body(line))
    ensures Body(Redacted(line)) == Body(line)[..Depth(line)] + REDACTED
    ensures SplitReturn(Redacted(line)).1 == SplitReturn(line).1
    ensures Depth(Redacted(line)) == Depth(line) && !Blank(Body(Redacted(line)))
    ensures Redacted(Redacted(line)) == Redacted(line)
  {
    RedactedParts(line);
    var front := Body(line)[..Depth(line)];
    IndentOf(Body(line));
    IndentThen(front, REDACTED);
    assert (front + REDACTED)[..Depth(line)] == front;
  }

  /** An indentation is spaces and tabs, all of them. */
  lemma {:induction false} IndentOf(s: Text)
    ensures forall i :: 0 <= i < Indent(s) ==> s[i] == 0x20 || s[i] == 0x09
  {
    if s != [] && (s[0] == 0x20 || s[0] == 0x09) {
      IndentOf(s[1..]);
      assert forall i :: 1 <= i < Indent(s) ==> s[i] == s[1..][i - 1];
    }
  }

  lemma {:induction false} IndentThen(front: Text, rest: Text)
    requires forall i :: 0 <= i < |front| ==> front[i] == 0x20 || front[i] == 0x09
    requires rest != [] && 0x20 < rest[0] < 0x80
    ensures Indent(front + rest) == |front| && !Blank(front + rest)
  {
    if front == [] {
      assert front + rest == rest;
    } else {
      assert (front + rest)[1..] == front[1..] + rest;
      IndentThen(front[1..], rest);
    }
  }

  /** The pattern does not match a line that has been masked. */
  ghost predicate RejectsRedacted(secret: Pattern) {
    forall line :: !Blank(Body(line)) ==> !IsHeader(secret, Redacted(line))
  }

  /** Masking what has been masked changes nothing. */
  lemma MaskedTwice(secret: Pattern, lines: seq<Text>)
    requires RejectsRedacted(secret)
    ensures MaskedLines(secret, MaskedLines(secret, lines)) == MaskedLines(secret, lines)
  {
    var once := MaskedLines(secret, lines);
    forall j | 0 <= j < |lines| ensures MaskedLine(secret, once, j) == once[j] {
      assert once[j] == MaskedLine(secret, lines, j);
      if Covered(secret, once, j) {
        StillCovered(secret, lines, j);
        RedactedKeeps(lines[j]);
      }
    }
  }

  lemma SameOutline(secret: Pattern, lines: seq<Text>, k: nat)
    requires k < |lines|
    ensures var once := MaskedLines(secret, lines);
            && Depth(once[k]) == Depth(lines[k]) && (Blank(Body(once[k])) <==> Blank(Body(lines[k])))
  {
    assert MaskedLines(secret, lines)[k] == MaskedLine(secret, lines, k);
    if Covered(secret, lines, k) {
      RedactedKeeps(lines[k]);
    }
  }

  lemma StillGoesOn(secret: Pattern, lines: seq<Text>, h: nat, k: nat)
    requires h < |lines| && k < |lines|
    requires GoesOn(Depth(MaskedLines(secret, lines)[h]), MaskedLines(secret, lines)[k])
    ensures GoesOn(Depth(lines[h]), lines[k])
  {
    SameOutline(secret, lines, h);
    SameOutline(secret, lines, k);
  }

  lemma StillReaches(secret: Pattern, lines: seq<Text>, h: nat, j: nat)
    requires h < j < |lines| && Reaches(MaskedLines(secret, lines), h, j)
    ensures Reaches(lines, h, j)
  {
    forall k | h < k <= j ensures GoesOn(Depth(lines[h]), lines[k]) {
      StillGoesOn(secret, lines, h, k);
    }
  }

  lemma StillCovered(secret: Pattern, lines: seq<Text>, j: nat)
    requires RejectsRedacted(secret) && j < |lines|
    requires Covered(secret, MaskedLines(secret, lines), j)
    ensures Covered(secret, lines, j)
  {
    var once := MaskedLines(secret, lines);
    var h :| 0 <= h < j && IsHeader(secret, once[h]) && Reaches(once, h, j);
    assert once[h] == MaskedLine(secret, lines, h);
    SameOutline(secret, lines, j);
    StillReaches(secret, lines, h, j);
  }

  // ---- where a block ends, by indentation ----

  /** The line starts with `n` spaces and tabs, and something else follows. */
  predicate Indented(line: Text, n: nat) {
    && n < |line| && line[n] != 0x20 && line[n] != 0x09
    && forall i :: 0 <= i < n ==> line[i] == 0x20 || line[i] == 0x09
  }

  lemma IndentedOnce(line: Text, n: nat)
    requires !Blank(Body(line))
    ensures Indented(line, n) <==> n == Depth(line)
  {
    var body := Body(line);
    IndentOf(body);
    IndentStops(body);
    assert Depth(line) < |body| && body <= line by {
      if Depth(line) == |body| {
        SpacesAreBlank(body);
      }
    }
    assert forall i :: 0 <= i < |body| ==> line[i] == body[i];
    assert forall i :: 0 <= i < Depth(line) ==> line[i] == 0x20 || line[i] == 0x09;
    assert Indented(line, Depth(line));
  }

  lemma {:induction false} IndentStops(s: Text)
    ensures Indent(s) < |s| ==> s[Indent(s)] != 0x20 && s[Indent(s)] != 0x09
  {
    if s != [] && (s[0] == 0x20 || s[0] == 0x09) {
      IndentStops(s[1..]);
      assert forall i :: 1 <= i < |s| ==> s[i] == s[1..][i - 1];
    }
  }

  lemma {:induction false} SpacesAreBlank(s: Text)
    requires forall i :: 0 <= i < |s| ==> s[i] == 0x20 || s[i] == 0x09
    ensures Blank(s)
  {
    if s != [] {
      SpacesAreBlank(s[1..]);
    }
  }

  /** A blank line of ASCII bytes is one of tabs, breaks and spaces; whatever the others are,
      a line that shows an ASCII character is not blank. */
  lemma {:induction false} BlankAscii(s: Text)
    requires forall i :: 0 <= i < |s| ==> s[i] < 0x80
    ensures Blank(s) <==> forall i :: 0 <= i < |s| ==> s[i] == 0x20 || 0x09 <= s[i] <= 0x0D
  {
    if s != [] {
      BlankAscii(s[1..]);
      assert forall i :: 1 <= i < |s| ==> s[i] == s[1..][i - 1];
    }
  }

  lemma {:induction false} ShownIsNotBlank(s: Text, i: nat)
    requires i < |s| && 0x20 < s[i] < 0x80
    ensures !Blank(s)
    decreases |s|
  {
    if Decode(s).Some? {
      var n := Decode(s).value.1;
      if i >= n {
        ShownIsNotBlank(s[n..], i - n);
      }
    }
  }

  /** Every line after `h` down to `j` that has something on it is indented more than `h`. */
  ghost predicate AllDeeper(lines: seq<Text>, h: nat, j: nat)
    requires h < j < |lines|
  {
    forall k, d: nat, n: nat :: h < k <= j && !Blank(Body(lines[k])) && Indented(lines[h], d) && Indented(lines[k], n) ==> d < n
  }

  /** There is something on the line, and a secret header above it with nothing but deeper
      lines from there down to it. */
  ghost predicate InSecret(secret: Pattern, lines: seq<Text>, j: nat)
    requires j < |lines|
  {
    !Blank(Body(lines[j])) && exists h :: 0 <= h < j && secret(Body(lines[h])) && AllDeeper(lines, h, j)
  }

  /** What becomes of one line: inside a secret its indentation and its carriage return
      around the mark, anywhere else the line itself. */
  ghost predicate BecomesOf(secret: Pattern, lines: seq<Text>, j: nat, after: Text)
    requires j < |lines|
  {
    if InSecret(secret, lines, j) then
      forall n: nat :: Indented(lines[j], n) ==>
        after == lines[j][..n] + Ascii("[REDACTED]") + (if lines[j][|lines[j]| - 1] == 0x0D then [0x0D] else [])
    else after == lines[j]
  }

  lemma DeeperIsReaches(lines: seq<Text>, h: nat, j: nat)
    requires h < j < |lines| && !Blank(Body(lines[h]))
    ensures AllDeeper(lines, h, j) <==> Reaches(lines, h, j)
  {
    IndentedOnce(lines[h], Depth(lines[h]));
    forall k | h < k <= j && !Blank(Body(lines[k])) ensures Indented(lines[k], Depth(lines[k])) {
      IndentedOnce(lines[k], Depth(lines[k]));
    }
    if Reaches(lines, h, j) {
      forall k, d: nat, n: nat | h < k <= j && !Blank(Body(lines[k])) && Indented(lines[h], d) && Indented(lines[k], n)
        ensures d < n
      {
        IndentedOnce(lines[h], d);
        IndentedOnce(lines[k], n);
        assert GoesOn(Depth(lines[h]), lines[k]);
      }
    }
  }

  lemma InSecretIsCovered(secret: Pattern, lines: seq<Text>, j: nat)
    requires HeadersShow(secret) && j < |lines|
    ensures InSecret(secret, lines, j) <==> Covered(secret, lines, j)
  {
    forall h | 0 <= h < j && secret(Body(lines[h])) ensures AllDeeper(lines, h, j) <==> Reaches(lines, h, j) {
      assert IsHeader(secret, lines[h]);
      DeeperIsReaches(lines, h, j);
    }
    if Covered(secret, lines, j) {
      var h :| 0 <= h < j && IsHeader(secret, lines[h]) && Reaches(lines, h, j);
      assert AllDeeper(lines, h, j);
    }
    if InSecret(secret, lines, j) {
      var h :| 0 <= h < j && secret(Body(lines[h])) && AllDeeper(lines, h, j);
      assert IsHeader(secret, lines[h]) && Reaches(lines, h, j);
    }
  }

  /** Exactly the lines inside a secret are masked. */
  lemma MaskedByIndentation(secret: Pattern, lines: seq<Text>, j: nat)
    requires HeadersShow(secret) && j < |lines|
    ensures BecomesOf(secret, lines, j, MaskedLines(secret, lines)[j])
    ensures InSecret(secret, lines, j) ==> Indented(lines[j], Depth(lines[j]))
  {
    InSecretIsCovered(secret, lines, j);
    assert MaskedLines(secret, lines)[j] == MaskedLine(secret, lines, j);
    if InSecret(secret, lines, j) {
      IndentedOnce(lines[j], Depth(lines[j]));
      forall n: nat | Indented(lines[j], n)
        ensures MaskedLines(secret, lines)[j] ==
          lines[j][..n] + Ascii("[REDACTED]") + (if lines[j][|lines[j]| - 1] == 0x0D then [0x0D] else [])
      {
        IndentedOnce(lines[j], n);
        assert n <= |Body(lines[j])| && Body(lines[j])[..n] == lines[j][..n];
      }
    }
  }

  /** A line with something on it that is not indented more than the header above it ends the
      block: it stays, and so do the lines after it, up to the next secret header. */
  lemma ADedentEndsTheBlock(secret: Pattern, lines: seq<Text>, h: nat, end: nat, j: nat, d: nat, n: nat)
    requires HeadersShow(secret) && h < end <= j < |lines|
    requires forall k :: 0 <= k < j && secret(Body(lines[k])) ==> k == h
    requires Indented(lines[h], d) && !Blank(Body(lines[end])) && Indented(lines[end], n) && n <= d
    ensures MaskedLines(secret, lines)[j] == lines[j]
  {
    MaskedByIndentation(secret, lines, j);
  }

  // ---- the whole content ----

  ghost function Masked(secret: Pattern, content: Text): (Text, bool) {
    var lines := Split(content, LF);
    if secret(content) && SomeCovered(secret, lines, 0, |lines|) then (Join(MaskedLines(secret, lines), LF), true)
    else (content, false)
  }

  lemma LinesAreMasked(secret: Pattern, lines: seq<Text>)
    requires Free(lines, LF)
    ensures Free(MaskedLines(secret, lines), LF)
    ensures !SomeCovered(secret, lines, 0, |lines|) ==> MaskedLines(secret, lines) == lines
  {
    forall j | 0 <= j < |lines| ensures LF !in MaskedLines(secret, lines)[j] {
      assert MaskedLines(secret, lines)[j] == MaskedLine(secret, lines, j);
      assert LF !in Body(lines[j])[..Depth(lines[j])];
      assert LF !in REDACTED;
    }
  }

  /** Line by line, the content that comes out of masking. */
  lemma MaskedInLines(secret: Pattern, content: Text)
    requires HeadersShow(secret)
    ensures var (lines, out) := (Split(content, LF), Masked(secret, content));
            && (out.1 <==> secret(content) && exists j :: 0 <= j < |lines| && InSecret(secret, lines, j))
            && (out.1 ==> |Split(out.0, LF)| == |lines| && forall j :: 0 <= j < |lines| ==> BecomesOf(secret, lines, j, Split(out.0, LF)[j]))
  {
    var lines := Split(content, LF);
    JoinSplit(content, LF);
    LinesAreMasked(secret, lines);
    SplitJoin(MaskedLines(secret, lines), LF);
    forall j | 0 <= j < |lines|
      ensures InSecret(secret, lines, j) <==> Covered(secret, lines, j)
      ensures BecomesOf(secret, lines, j, MaskedLines(secret, lines)[j])
    {
      InSecretIsCovered(secret, lines, j);
      MaskedByIndentation(secret, lines, j);
    }
  }

  method MaskBlockScalars(secret: Pattern, content: Text) returns (out: Text, masked: bool)
    requires HeadersShow(secret)
    ensures (out, masked) == Masked(secret, content)
    ensures masked <==> secret(content) && exists j :: 0 <= j < |Split(content, LF)| && InSecret(secret, Split(content, LF), j)
    ensures !masked ==> out == content
    ensures masked ==> |Split(out, LF)| == |Split(content, LF)|
    ensures masked ==> forall j :: 0 <= j < |Split(out, LF)| ==> BecomesOf(secret, Split(content, LF), j, Split(out, LF)[j])
  {
    MaskedInLines(secret, content);
    if !secret(content) {
      return content, false;
    }
    var lines := Split(content, LF);
    var a := new Text[|lines|](i requires 0 <= i < |lines| => lines[i]);
    assert a[..] == lines;
    masked := MaskLines(secret, a);
    if !masked {
      return content, false;
    }
    out := Join(a[..], LF);
  }

  /** Line by line: content with a secret header in it has as many lines after masking as
      before, each one masked when it is covered and untouched when it is not; and masking
      the result changes nothing more. */
  lemma MaskingKeepsLines(secret: Pattern, content: Text)
    requires RejectsRedacted(secret)
    ensures secret(content) ==> Split(Masked(secret, content).0, LF) == MaskedLines(secret, Split(content, LF))
    ensures !secret(content) ==> Masked(secret, content) == (content, false)
    ensures Masked(secret, Masked(secret, content).0).0 == Masked(secret, content).0
  {
    var lines := Split(content, LF);
    JoinSplit(content, LF);
    LinesAreMasked(secret, lines);
    var once := MaskedLines(secret, lines);
    SplitJoin(once, LF);
    MaskedTwice(secret, lines);
    if secret(content) && SomeCovered(secret, lines, 0, |lines|) {
      assert Split(Join(once, LF), LF) == once;
    }
  }
}
