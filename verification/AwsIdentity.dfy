/**
 The text an AWS line's identity is hashed from: the billing period as given and seven trimmed
 fields, each after a separator. Text is its code points, which UTF-8 writes as bytes one to one.
 */
module AwsIdentity {
  import opened Wrappers

  /** Text, or text with some separators marked otherwise. */
  type Text = seq<int>
  type CodePoints = seq<nat>

  const SEPARATOR := 0x1f

  predicate Plain(part: Text) {
    forall i :: 0 <= i < |part| ==> part[i] != SEPARATOR
  }

  predicate AllPlain(parts: seq<Text>) {
    forall i :: 0 <= i < |parts| ==> Plain(parts[i])
  }

  /** The billing period first, then each field after a separator. */
  function Joined(parts: seq<Text>): Text
    requires parts != []
  {
    if |parts| == 1 then parts[0]
    else Joined(parts[..|parts| - 1]) + [SEPARATOR] + parts[|parts| - 1]
  }

  /** Cutting at every separator. */
  function Pieces(text: Text): (parts: seq<Text>)
    ensures parts != [] && AllPlain(parts)
  {
    if text == [] then [[]]
    else
      var front, b := Pieces(text[..|text| - 1]), text[|text| - 1];
      if b == SEPARATOR then front + [[]]
      else front[..|front| - 1] + [front[|front| - 1] + [b]]
  }

  lemma {:induction false} PiecesOfPlain(part: Text)
    requires Plain(part)
    ensures Pieces(part) == [part]
  {
    if part != [] {
      var n := |part| - 1;
      PiecesOfPlain(part[..n]);
      assert part[n] != SEPARATOR && part[..n] + [part[n]] == part;
    }
  }

  lemma {:induction false} PiecesLast(text: Text, part: Text)
    requires Plain(part)
    ensures Pieces(text + [SEPARATOR] + part) == Pieces(text) + [part]
  {
    var all := text + [SEPARATOR] + part;
    if part == [] {
      assert all[..|all| - 1] == text;
    } else {
      var n := |part| - 1;
      assert all[..|all| - 1] == text + [SEPARATOR] + part[..n];
      PiecesLast(text, part[..n]);
      assert all[|all| - 1] == part[n] != SEPARATOR && part[..n] + [part[n]] == part;
      assert (Pieces(text) + [part[..n]])[..|Pieces(text)|] == Pieces(text);
    }
  }

  lemma {:induction false} PiecesOfJoined(parts: seq<Text>)
    requires parts != [] && AllPlain(parts)
    ensures Pieces(Joined(parts)) == parts
  {
    if |parts| == 1 {
      PiecesOfPlain(parts[0]);
    } else {
      PiecesOfJoined(parts[..|parts| - 1]);
      PiecesLast(Joined(parts[..|parts| - 1]), parts[|parts| - 1]);
    }
  }

  /** The parts can be read back exactly when none of them holds a separator. */
  lemma {:induction false} ReadsBackIff(parts: seq<Text>)
    requires parts != []
    ensures Pieces(Joined(parts)) == parts <==> AllPlain(parts)
  {
    if AllPlain(parts) {
      PiecesOfJoined(parts);
    }
  }

  // ---------------------------------------------------------------------------
  // Counting separators
  // ---------------------------------------------------------------------------

  function Separators(text: Text): nat {
    if text == [] then 0
    else Separators(text[..|text| - 1]) + if text[|text| - 1] == SEPARATOR then 1 else 0
  }

  lemma {:induction false} SeparatorsAppend(x: Text, y: Text)
    ensures Separators(x + y) == Separators(x) + Separators(y)
  {
    if y == [] {
      assert x + y == x;
    } else {
      SeparatorsAppend(x, y[..|y| - 1]);
      assert (x + y)[..|x + y| - 1] == x + y[..|y| - 1];
    }
  }

  lemma {:induction false} PlainHasNone(part: Text)
    ensures Plain(part) <==> Separators(part) == 0
  {
    if part != [] {
      var n := |part| - 1;
      PlainHasNone(part[..n]);
      if Plain(part) {
        assert Plain(part[..n]);
      } else if part[n] != SEPARATOR {
        var i :| 0 <= i < |part| && part[i] == SEPARATOR;
        assert part[..n][i] == SEPARATOR;
      }
    }
  }

  /** There are at least as many separators as joints, and no more only when every part is plain. */
  lemma {:induction false} SeparatorsOfJoined(parts: seq<Text>)
    requires parts != []
    ensures Separators(Joined(parts)) >= |parts| - 1
    ensures Separators(Joined(parts)) == |parts| - 1 <==> AllPlain(parts)
  {
    var n := |parts| - 1;
    PlainHasNone(parts[n]);
    if n > 0 {
      var front := parts[..n];
      SeparatorsOfJoined(front);
      SeparatorsAppend(Joined(front), [SEPARATOR]);
      SeparatorsAppend(Joined(front) + [SEPARATOR], parts[n]);
      assert Separators([SEPARATOR]) == 1;
      assert AllPlain(parts) <==> AllPlain(front) && Plain(parts[n]);
    }
  }

  /** A line free of the separator shares its text with no other line of as many parts. */
  lemma {:induction false} JoinedIsInjective(a: seq<Text>, b: seq<Text>)
    requires a != [] && |a| == |b| && AllPlain(a) && Joined(a) == Joined(b)
    ensures a == b
  {
    SeparatorsOfJoined(a);
    SeparatorsOfJoined(b);
    PiecesOfJoined(a);
    PiecesOfJoined(b);
  }

  /** The text on either side of a joint. */
  function Joint(p: Text, q: Text): Text {
    p + [SEPARATOR] + q
  }

  lemma JointAfter(x: Text, p: Text, q: Text)
    ensures Joint(Joint(x, p), q) == Joint(x, Joint(p, q))
  {
  }

  lemma {:induction false} JoinedOne(parts: seq<Text>)
    requires |parts| >= 2
    ensures Joined(parts) == Joint(Joined(parts[..|parts| - 1]), parts[|parts| - 1])
  {
  }

  lemma {:induction false} JoinedTwo(parts: seq<Text>)
    requires |parts| >= 2
    ensures Joined(parts) ==
              if |parts| == 2 then Joint(parts[0], parts[1])
              else Joint(Joined(parts[..|parts| - 2]), Joint(parts[|parts| - 2], parts[|parts| - 1]))
  {
    var n := |parts| - 1;
    var front := parts[..n];
    JoinedOne(parts);
    if n > 1 {
      JoinedOne(front);
      assert front[..n - 1] == parts[..n - 1];
      JointAfter(Joined(parts[..n - 1]), parts[n - 1], parts[n]);
    }
  }

  /** Moving text across one joint does not show. */
  lemma {:induction false} MovedText(parts: seq<Text>, i: nat, p: Text, q: Text)
    requires i + 1 < |parts| && Joint(parts[i], parts[i + 1]) == Joint(p, q)
    ensures Joined(parts[i := p][i + 1 := q]) == Joined(parts)
  {
    var moved, n := parts[i := p][i + 1 := q], |parts| - 1;
    if i + 1 == n {
      JoinedTwo(parts);
      JoinedTwo(moved);
      assert moved[..n - 1] == parts[..n - 1];
    } else {
      MovedText(parts[..n], i, p, q);
      assert moved[..n] == parts[..n][i := p][i + 1 := q];
    }
  }

  // ---------------------------------------------------------------------------
  // Trimming
  // ---------------------------------------------------------------------------

  /** White space as Unicode has it. The separator is none. */
  predicate Blank(c: int) {
    || 0x09 <= c <= 0x0d || c == 0x20 || c == 0x85 || c == 0xa0 || c == 0x1680
    || 0x2000 <= c <= 0x200a || c == 0x2028 || c == 0x2029 || c == 0x202f || c == 0x205f || c == 0x3000
  }

  predicate StartsWell(part: Text) {
    part != [] ==> !Blank(part[0])
  }

  predicate EndsWell(part: Text) {
    part != [] ==> !Blank(part[|part| - 1])
  }

  predicate Trimmed(part: Text) {
    StartsWell(part) && EndsWell(part)
  }

  predicate AllTrimmed(parts: seq<Text>) {
    forall i :: 0 <= i < |parts| ==> Trimmed(parts[i])
  }

  /** The period may be any text; the fields are trimmed. */
  predicate IsLine(a: seq<Text>) {
    a != [] && AllTrimmed(a[1..])
  }

  function TrimStart(text: CodePoints): (r: CodePoints)
    ensures StartsWell(r)
  {
    if text != [] && Blank(text[0]) then TrimStart(text[1..]) else text
  }

  function TrimEnd(text: CodePoints): (r: CodePoints)
    ensures EndsWell(r) && (StartsWell(text) ==> StartsWell(r))
  {
    if text != [] && Blank(text[|text| - 1]) then TrimEnd(text[..|text| - 1]) else text
  }

  /** A field as it is hashed: trimmed, and empty when the row has none. */
  function OptionalField(value: Option<CodePoints>): (r: CodePoints)
    ensures Trimmed(r) && (value.Some? && Trimmed(value.value) ==> r == value.value)
  {
    if value == None then [] else TrimEnd(TrimStart(value.value))
  }

  predicate AllBlank(text: Text) {
    forall i :: 0 <= i < |text| ==> Blank(text[i])
  }

  lemma {:induction false} StartIsTrimmedOff(text: CodePoints) returns (blank: CodePoints)
    ensures AllBlank(blank) && text == blank + TrimStart(text)
  {
    if text != [] && Blank(text[0]) {
      var rest := StartIsTrimmedOff(text[1..]);
      blank := [text[0]] + rest;
    } else {
      blank := [];
    }
  }

  lemma {:induction false} EndIsTrimmedOff(text: CodePoints) returns (blank: CodePoints)
    ensures AllBlank(blank) && text == TrimEnd(text) + blank
  {
    if text != [] && Blank(text[|text| - 1]) {
      var rest := EndIsTrimmedOff(text[..|text| - 1]);
      blank := rest + [text[|text| - 1]];
    } else {
      blank := [];
    }
  }

  /** What is hashed of a field is the field less white space before and after it. */
  lemma {:induction false} FieldIsTrimmed(value: CodePoints) returns (before: CodePoints, after: CodePoints)
    ensures AllBlank(before) && AllBlank(after)
    ensures value == before + OptionalField(Some(value)) + after && Trimmed(OptionalField(Some(value)))
  {
    before := StartIsTrimmedOff(value);
    after := EndIsTrimmedOff(TrimStart(value));
  }

  /** White space is Unicode's, and the separator is not among it. */
  lemma {:induction false} WhiteSpaceIs(c: int)
    ensures Blank(c) <==>
              c in {0x09, 0x0a, 0x0b, 0x0c, 0x0d, 0x20, 0x85, 0xa0, 0x1680,
                    0x2000, 0x2001, 0x2002, 0x2003, 0x2004, 0x2005, 0x2006, 0x2007, 0x2008, 0x2009, 0x200a,
                    0x2028, 0x2029, 0x202f, 0x205f, 0x3000}
  {
  }

  function LineOf(billingPeriod: CodePoints, fields: seq<Option<CodePoints>>): (a: seq<CodePoints>)
    ensures IsLine(a) && |a| == |fields| + 1
  {
    [billingPeriod] + seq(|fields|, i requires 0 <= i < |fields| => OptionalField(fields[i]))
  }

  /** The period comes first, as given; then each field in its place, trimmed, or empty if there is none. */
  lemma {:induction false} LineHoldsItsFields(billingPeriod: CodePoints, fields: seq<Option<CodePoints>>, i: nat)
    requires i < |fields|
    ensures LineOf(billingPeriod, fields)[0] == billingPeriod
    ensures LineOf(billingPeriod, fields)[i + 1] == OptionalField(fields[i])
    ensures fields[i] == None ==> LineOf(billingPeriod, fields)[i + 1] == []
  {
  }

  // ---------------------------------------------------------------------------
  // Separators a joint could be at
  // ---------------------------------------------------------------------------

  /** The text after it could begin a field. */
  predicate OpenRight(part: Text, i: nat)
    requires i < |part|
  {
    i + 1 < |part| ==> !Blank(part[i + 1])
  }

  /** And the text before it could end one. */
  predicate Open(part: Text, i: nat)
    requires i < |part|
  {
    OpenRight(part, i) && (i > 0 ==> !Blank(part[i - 1]))
  }

  predicate NoneOpen(part: Text) {
    forall i :: 0 <= i < |part| && part[i] == SEPARATOR ==> !Open(part, i)
  }

  predicate NoneOpenRight(part: Text) {
    forall i :: 0 <= i < |part| && part[i] == SEPARATOR ==> !OpenRight(part, i)
  }

  /** The text with every separator that is not open put out of the way. */
  function Marked(part: Text): (r: Text)
    ensures |r| == |part|
  {
    seq(|part|, i requires 0 <= i < |part| => if part[i] == SEPARATOR && !Open(part, i) then -1 else part[i])
  }

  function MarkedAll(parts: seq<Text>): (r: seq<Text>)
    ensures |r| == |parts|
  {
    seq(|parts|, i requires 0 <= i < |parts| => Marked(parts[i]))
  }

  lemma MarkedIsPlainIff(part: Text)
    ensures Plain(Marked(part)) <==> NoneOpen(part)
  {
    if Plain(Marked(part)) {
      forall i | 0 <= i < |part| && part[i] == SEPARATOR ensures !Open(part, i) {
        assert Marked(part)[i] != SEPARATOR;
      }
    }
  }

  lemma MarkedIsInjective(x: CodePoints, y: CodePoints)
    requires Marked(x) == Marked(y)
    ensures x == y
  {
    forall i | 0 <= i < |x| ensures x[i] == y[i] {
      assert Marked(x)[i] == Marked(y)[i];
    }
  }

  /** A joint leaves the marks on either side, and is itself open when they end and start well. */
  lemma {:induction false} MarkedJoint(x: Text, y: Text)
    ensures Marked(Joint(x, y))
            == Marked(x) + [if EndsWell(x) && StartsWell(y) then SEPARATOR else -1] + Marked(y)
  {
    var z := Joint(x, y);
    forall i | 0 <= i < |x| ensures Marked(z)[i] == Marked(x)[i] {
      assert z[i] == x[i] && z[i + 1] == (if i + 1 < |x| then x[i + 1] else SEPARATOR);
    }
    forall i | 0 <= i < |y| ensures Marked(z)[|x| + 1 + i] == Marked(y)[i] {
      assert z[|x| + 1 + i] == y[i] && z[|x| + i] == (if i > 0 then y[i - 1] else SEPARATOR);
    }
  }

  lemma JointIsTrimmed(x: Text, y: Text)
    ensures StartsWell(Joint(x, y)) <==> StartsWell(x)
    ensures EndsWell(Joint(x, y)) <==> EndsWell(y)
  {
  }

  lemma {:induction false} JoinedIsTrimmed(parts: seq<Text>)
    requires parts != [] && AllTrimmed(parts)
    ensures Trimmed(Joined(parts))
  {
    if |parts| > 1 {
      JoinedIsTrimmed(parts[..|parts| - 1]);
      JointIsTrimmed(Joined(parts[..|parts| - 1]), parts[|parts| - 1]);
    }
  }

  lemma {:induction false} MarkedJoined(parts: seq<Text>)
    requires parts != [] && AllTrimmed(parts)
    ensures Marked(Joined(parts)) == Joined(MarkedAll(parts))
  {
    if |parts| > 1 {
      var n := |parts| - 1;
      MarkedJoined(parts[..n]);
      JoinedIsTrimmed(parts[..n]);
      MarkedJoint(Joined(parts[..n]), parts[n]);
      assert MarkedAll(parts)[..n] == MarkedAll(parts[..n]);
    }
  }

  lemma {:induction false} OpenInJoined(parts: seq<Text>)
    requires parts != [] && AllTrimmed(parts)
    ensures Separators(Marked(Joined(parts))) >= |parts| - 1
    ensures Separators(Marked(Joined(parts))) == |parts| - 1 <==> forall i :: 0 <= i < |parts| ==> NoneOpen(parts[i])
  {
    MarkedJoined(parts);
    SeparatorsOfJoined(MarkedAll(parts));
    forall i | 0 <= i < |parts| ensures Plain(MarkedAll(parts)[i]) <==> NoneOpen(parts[i]) {
      MarkedIsPlainIff(parts[i]);
    }
  }

  lemma {:induction false} OpenAfter(x: Text, y: Text)
    ensures Separators(Marked(Joint(x, y))) >= Separators(Marked(y))
  {
    MarkedJoint(x, y);
    SeparatorsAppend(Marked(x) + [if EndsWell(x) && StartsWell(y) then SEPARATOR else -1], Marked(y));
  }

  // ---------------------------------------------------------------------------
  // Exactly when the hashed text determines the line
  // ---------------------------------------------------------------------------

  /** The first part apart from the rest. */
  lemma {:induction false} JoinedFirst(parts: seq<Text>)
    requires |parts| >= 2
    ensures Joined(parts) == Joint(parts[0], Joined(parts[1..])) == parts[0] + [0x1f] + Joined(parts[1..])
  {
    var n := |parts| - 1;
    JoinedOne(parts);
    if n > 1 {
      JoinedFirst(parts[..n]);
      JoinedOne(parts[1..]);
      assert parts[..n][1..] == parts[1..][..n - 1];
      JointAfter(parts[0], Joined(parts[1..][..n - 1]), parts[n]);
    } else {
      assert parts[1..] == [parts[1]];
    }
  }

  /** Fields without an open separator are the only ones of their text. */
  lemma {:induction false} FieldsAreDetermined(f: seq<CodePoints>, g: seq<CodePoints>)
    requires f != [] && |g| == |f| && AllTrimmed(f) && AllTrimmed(g) && Joined(f) == Joined(g)
    requires forall i :: 0 <= i < |f| ==> NoneOpen(f[i])
    ensures g == f
  {
    MarkedJoined(f);
    MarkedJoined(g);
    forall i | 0 <= i < |f| ensures Plain(MarkedAll(f)[i]) {
      MarkedIsPlainIff(f[i]);
    }
    JoinedIsInjective(MarkedAll(f), MarkedAll(g));
    forall i | 0 <= i < |f| ensures f[i] == g[i] {
      assert MarkedAll(f)[i] == MarkedAll(g)[i];
      MarkedIsInjective(f[i], g[i]);
    }
  }

  /** Two joints in one text: the later one lies in what follows the earlier. */
  lemma JointsApart(p: Text, r: Text, q: Text, s: Text)
    requires Joint(p, r) == Joint(q, s) && |p| <= |q|
    ensures |p| == |q| ==> p == q && r == s
    ensures |p| < |q| ==>
              && q[|p|] == SEPARATOR && r == Joint(q[|p| + 1..], s)
              && (StartsWell(r) ==> OpenRight(q, |p|))
  {
    var t := Joint(p, r);
    assert p == t[..|p|] && r == t[|p| + 1..] && q == t[..|q|] && s == t[|q| + 1..];
    if |p| < |q| {
      assert q[|p|] == t[|p|] == SEPARATOR;
      assert r == t[|p| + 1..|q|] + t[|q|..] && t[|p| + 1..|q|] == q[|p| + 1..];
      assert |p| + 1 < |q| ==> r[0] == q[|p| + 1];
    }
  }

  lemma JointIsOpenRight(x: Text, y: Text)
    requires StartsWell(y)
    ensures !NoneOpenRight(Joint(x, y))
  {
    assert Joint(x, y)[|x|] == SEPARATOR && OpenRight(Joint(x, y), |x|);
  }

  /** The fields cannot begin later in their text: there are too few places left for joints. */
  lemma {:induction false} FieldsBeginAtTheFirst(f: seq<CodePoints>, g: seq<CodePoints>, x: Text)
    requires f != [] && |g| == |f| && AllTrimmed(f) && AllTrimmed(g)
    requires NoneOpenRight(f[0]) && forall i :: 0 <= i < |f| ==> NoneOpen(f[i])
    ensures Joined(f) != Joint(x, Joined(g))
  {
    if Joined(f) == Joint(x, Joined(g)) {
      JoinedIsTrimmed(g);
      OpenInJoined(g);
      if |f| == 1 {
        JointIsOpenRight(x, Joined(g));
      } else {
        JoinedFirst(f);
        OpenInJoined(f[1..]);
        if |x| < |f[0]| {
          JointsApart(x, Joined(g), f[0], Joined(f[1..]));
        } else {
          JointsApart(f[0], Joined(f[1..]), x, Joined(g));
          if |x| > |f[0]| {
            OpenAfter(x[|f[0]| + 1..], Joined(g));
          }
        }
      }
    }
  }

  /** No separator in the line could be a joint in place of one that is. */
  predicate Sealed(a: seq<Text>)
    requires |a| >= 2
  {
    NoneOpenRight(a[0]) && NoneOpenRight(a[1]) && forall i :: 2 <= i < |a| ==> NoneOpen(a[i])
  }

  lemma {:induction false} SealedIsDetermined(a: seq<CodePoints>, b: seq<CodePoints>)
    requires |a| >= 2 && |b| == |a| && IsLine(a) && IsLine(b) && Sealed(a) && Joined(a) == Joined(b)
    ensures b == a
  {
    var f, g := a[1..], b[1..];
    forall i | 0 <= i < |f| ensures NoneOpen(f[i]) {
      assert f[i] == a[i + 1];
    }
    JoinedFirst(a);
    JoinedFirst(b);
    JoinedIsTrimmed(g);
    if |b[0]| < |a[0]| {
      JointsApart(b[0], Joined(g), a[0], Joined(f));
    } else {
      JointsApart(a[0], Joined(f), b[0], Joined(g));
      if |b[0]| > |a[0]| {
        FieldsBeginAtTheFirst(f, g, b[0][|a[0]| + 1..]);
      } else {
        FieldsAreDetermined(f, g);
        assert a == [a[0]] + f && b == [b[0]] + g;
      }
    }
  }

  /** A part holding a separator can give the text before it to the part on its left. */
  lemma {:induction false} MoveLeft(a: seq<CodePoints>, i: nat, j: nat) returns (b: seq<CodePoints>)
    requires 0 < i < |a| && j < |a[i]| && a[i][j] == SEPARATOR
    ensures b == a[i - 1 := Joint(a[i - 1], a[i][..j])][i := a[i][j + 1..]]
    ensures b != a && Joined(b) == Joined(a)
  {
    var x, y := a[i][..j], a[i][j + 1..];
    assert a[i] == Joint(x, y);
    JointAfter(a[i - 1], x, y);
    b := a[i - 1 := Joint(a[i - 1], x)][i := y];
    MovedText(a, i - 1, Joint(a[i - 1], x), y);
    assert |b[i]| < |a[i]|;
  }

  /** Or the text after it to the part on its right. */
  lemma {:induction false} MoveRight(a: seq<CodePoints>, i: nat, j: nat) returns (b: seq<CodePoints>)
    requires i + 1 < |a| && j < |a[i]| && a[i][j] == SEPARATOR
    ensures b == a[i := a[i][..j]][i + 1 := Joint(a[i][j + 1..], a[i + 1])]
    ensures b != a && Joined(b) == Joined(a)
  {
    var x, y := a[i][..j], a[i][j + 1..];
    assert a[i] == Joint(x, y);
    JointAfter(x, y, a[i + 1]);
    b := a[i := x][i + 1 := Joint(y, a[i + 1])];
    MovedText(a, i, x, Joint(y, a[i + 1]));
    assert |b[i]| < |a[i]|;
  }

  /** What stands on either side of an open separator is as well trimmed as the whole. */
  lemma OpenSplits(part: Text, j: nat)
    requires j < |part| && part[j] == SEPARATOR && OpenRight(part, j)
    ensures StartsWell(part[j + 1..]) && (EndsWell(part) ==> EndsWell(part[j + 1..]))
    ensures Open(part, j) ==> EndsWell(part[..j])
    ensures StartsWell(part) ==> StartsWell(part[..j])
  {
  }

  lemma {:induction false} FieldCollides(a: seq<CodePoints>, i: nat, j: nat) returns (b: seq<CodePoints>)
    requires IsLine(a) && 0 < i < |a| && j < |a[i]| && a[i][j] == SEPARATOR
    requires Open(a[i], j) || (i == 1 && OpenRight(a[i], j))
    ensures |b| == |a| && IsLine(b) && b != a && Joined(b) == Joined(a)
  {
    b := MoveLeft(a, i, j);
    assert forall k :: 1 <= k < |a| ==> a[1..][k - 1] == a[k];
    OpenSplits(a[i], j);
    JointIsTrimmed(a[i - 1], a[i][..j]);
    forall k | 1 <= k < |b| ensures Trimmed(b[k]) {
    }
  }

  lemma {:induction false} PeriodCollides(a: seq<CodePoints>, j: nat) returns (b: seq<CodePoints>)
    requires IsLine(a) && |a| >= 2 && j < |a[0]| && a[0][j] == SEPARATOR && OpenRight(a[0], j)
    ensures |b| == |a| && IsLine(b) && b != a && Joined(b) == Joined(a)
  {
    b := MoveRight(a, 0, j);
    assert forall k :: 1 <= k < |a| ==> a[1..][k - 1] == a[k];
    OpenSplits(a[0], j);
    JointIsTrimmed(a[0][j + 1..], a[1]);
    forall k | 1 <= k < |b| ensures Trimmed(b[k]) {
    }
  }

  lemma {:induction false} UnsealedCollides(a: seq<CodePoints>) returns (b: seq<CodePoints>)
    requires |a| >= 2 && IsLine(a) && !Sealed(a)
    ensures |b| == |a| && IsLine(b) && b != a && Joined(b) == Joined(a)
  {
    if !NoneOpenRight(a[0]) {
      var j: nat :| j < |a[0]| && a[0][j] == SEPARATOR && OpenRight(a[0], j);
      b := PeriodCollides(a, j);
    } else if !NoneOpenRight(a[1]) {
      var j: nat :| j < |a[1]| && a[1][j] == SEPARATOR && OpenRight(a[1], j);
      b := FieldCollides(a, 1, j);
    } else {
      var i: nat :| 2 <= i < |a| && !NoneOpen(a[i]);
      var j: nat :| j < |a[i]| && a[i][j] == SEPARATOR && Open(a[i], j);
      b := FieldCollides(a, i, j);
    }
  }

  /** No other line of as many parts is hashed from the same text. */
  ghost predicate Determined(a: seq<CodePoints>)
    requires a != []
  {
    forall b: seq<CodePoints> :: |b| == |a| && IsLine(b) && Joined(b) == Joined(a) ==> b == a
  }

  /**
   The hashed text determines a line exactly when white space stands right after every separator in
   its period and its first field, and right before or after every one in its other fields.
   */
  lemma {:induction false} DeterminedIffSealed(a: seq<CodePoints>)
    requires |a| >= 2 && IsLine(a)
    ensures Determined(a) <==> Sealed(a)
  {
    if Sealed(a) {
      forall b: seq<CodePoints> | |b| == |a| && IsLine(b) && Joined(b) == Joined(a) ensures b == a {
        SealedIsDetermined(a, b);
      }
    } else {
      var b := UnsealedCollides(a);
    }
  }

  /** A separator inside the first of the seven fields: another line of the same text. */
  lemma {:induction false} LinesCanCollide() returns (a: seq<CodePoints>, b: seq<CodePoints>)
    ensures a == [[1], [2, SEPARATOR, 3], [4], [], [], [], [], []] && IsLine(a)
    ensures |b| == |a| && IsLine(b) && b != a && Joined(b) == Joined(a)
  {
    a := [[1], [2, SEPARATOR, 3], [4], [], [], [], [], []];
    b := FieldCollides(a, 1, 1);
  }

  lemma {:induction false} JoinedOneMore(parts: seq<Text>, n: nat)
    requires 0 < n < |parts|
    ensures Joined(parts[..n + 1]) == Joined(parts[..n]) + [SEPARATOR] + parts[n]
  {
    assert parts[..n + 1][..n] == parts[..n];
  }

  /** Feeds the hasher: the period, then each field behind a separator. */
  method DeriveExternalIdBytes(billingPeriod: CodePoints, fields: seq<Option<CodePoints>>) returns (hashed: CodePoints)
    ensures hashed == Joined(LineOf(billingPeriod, fields))
  {
    hashed := billingPeriod;
    ghost var parts := LineOf(billingPeriod, fields);
    assert parts[..1] == [billingPeriod];
    for i := 0 to |fields|
      invariant hashed == Joined(parts[..i + 1])
    {
      JoinedOneMore(parts, i + 1);
      hashed := hashed + [SEPARATOR];
      hashed := hashed + OptionalField(fields[i]);
    }
    assert parts[..|fields| + 1] == parts;
  }
}
