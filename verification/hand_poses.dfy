/** The pre-estimated hand poses the overlay is built from, and the file
    names their overlay images get.

    A pose belongs to one of two per-hand lists; its index is its position in
    that list and its hand type is the list's hand, so neither is stored in
    the pose itself.
 */
module HandPoses {

  datatype HandType = Right | Left {
    /** The enum member's name, as Python's `HandType.X.name` spells it. */
    function Name(): (s: string)
      ensures |s| > 0 && IsLetter(s[0])
    {
      match this
      case Right => "RIGHT"
      case Left => "LEFT"
    }
  }

  /** One estimated pose: when it happens in the reference video, and the
      name of its overlay image once one has been created ("" before). */
  datatype HandPose = HandPose(timestamp: real, imageFilename: string)

  /** The poses of both hands, each list in timestamp order. */
  datatype PoseTable = PoseTable(right: seq<HandPose>, left: seq<HandPose>) {
    function List(hand: HandType): seq<HandPose> {
      match hand
      case Right => right
      case Left => left
    }

    function WithList(hand: HandType, poses: seq<HandPose>): (t: PoseTable)
      ensures t.List(hand) == poses
      ensures forall other: HandType :: other != hand ==> t.List(other) == List(other)
    {
      match hand
      case Right => this.(right := poses)
      case Left => this.(left := poses)
    }
  }

  /** The timestamps of a pose list, the only part of a pose the strip frames read. */
  function Timestamps(poses: seq<HandPose>): (ts: seq<real>)
    ensures |ts| == |poses|
    ensures forall i :: 0 <= i < |poses| ==> ts[i] == poses[i].timestamp
  {
    seq(|poses|, i requires 0 <= i < |poses| => poses[i].timestamp)
  }

  predicate IsDigit(c: char) {
    '0' <= c <= '9'
  }

  predicate IsLetter(c: char) {
    'A' <= c <= 'Z' || 'a' <= c <= 'z'
  }

  function DigitChar(d: nat): (c: char)
    requires d < 10
    ensures IsDigit(c)
  {
    "0123456789"[d]
  }

  function DigitValue(c: char): (d: nat)
    requires IsDigit(c)
    ensures d < 10
  {
    (c as int - '0' as int) as nat
  }

  /** Python's `str(n)` for a non-negative integer: decimal digits, no leading zero. */
  function DecimalString(n: nat): (s: string)
    ensures |s| > 0
    ensures forall i :: 0 <= i < |s| ==> IsDigit(s[i])
    ensures s[0] == '0' ==> n == 0
  {
    if n < 10 then [DigitChar(n)] else DecimalString(n / 10) + [DigitChar(n % 10)]
  }

  /** Reads a string of decimal digits back as a number. */
  function ParseDecimal(s: string): nat
    requires forall i :: 0 <= i < |s| ==> IsDigit(s[i])
  {
    if |s| == 0 then 0 else ParseDecimal(s[..|s| - 1]) * 10 + DigitValue(s[|s| - 1])
  }

  /** Reading the decimal rendering back gives the number. */
  lemma {:induction false} ParseDecimalString(n: nat)
    ensures ParseDecimal(DecimalString(n)) == n
  {
    var s := DecimalString(n);
    if n < 10 {
      assert s[..|s| - 1] == [];
    } else {
      assert s[..|s| - 1] == DecimalString(n / 10);
      ParseDecimalString(n / 10);
    }
  }

  /** Different indices are rendered differently. */
  lemma DecimalStringInjective(m: nat, n: nat)
    ensures DecimalString(m) == DecimalString(n) ==> m == n
  {
    ParseDecimalString(m);
    ParseDecimalString(n);
  }

  /** The name of the overlay image of the pose at `index` of `hand`'s list:
      "hand_pose" + index + hand name + ".png". */
  function ImageFilename(index: nat, hand: HandType): (name: string)
    ensures |name| > 0
  {
    "hand_pose" + DecimalString(index) + hand.Name() + ".png"
  }

  /** Concatenation regrouped around its two middle parts. */
  lemma Regroup<T>(a: seq<T>, b: seq<T>, c: seq<T>, d: seq<T>)
    ensures a + b + c + d == a + (b + c) + d
  {
  }

  /** Equal sequences with equal prefixes and suffixes have equal middles. */
  lemma SameMiddle<T>(prefix: seq<T>, a: seq<T>, b: seq<T>, suffix: seq<T>)
    requires prefix + a + suffix == prefix + b + suffix
    ensures a == b
  {
    var s := prefix + a + suffix;
    assert |a| == |b|;
    assert a == s[|prefix|..|prefix| + |a|];
    assert b == (prefix + b + suffix)[|prefix|..|prefix| + |b|];
  }

  /** A run of digits followed by a word that starts with a letter splits
      in only one way. */
  lemma DigitsThenWord(d1: string, w1: string, d2: string, w2: string)
    requires forall i :: 0 <= i < |d1| ==> IsDigit(d1[i])
    requires forall i :: 0 <= i < |d2| ==> IsDigit(d2[i])
    requires |w1| > 0 && IsLetter(w1[0]) && |w2| > 0 && IsLetter(w2[0])
    requires d1 + w1 == d2 + w2
    ensures d1 == d2 && w1 == w2
  {
    var s := d1 + w1;
    assert !IsDigit(s[|d1|]);
    assert !IsDigit((d2 + w2)[|d2|]);
    assert |d1| == |d2|;
    assert d1 == s[..|d1|];
    assert d2 == (d2 + w2)[..|d2|];
    assert w1 == s[|d1|..];
    assert w2 == (d2 + w2)[|d2|..];
  }

  /** Two poses never share an image file: the name determines both the
      index and the hand. */
  lemma ImageFilenameInjective(i: nat, h: HandType, j: nat, g: HandType)
    requires ImageFilename(i, h) == ImageFilename(j, g)
    ensures i == j && h == g
  {
    var di, dj := DecimalString(i), DecimalString(j);
    Regroup("hand_pose", di, h.Name(), ".png");
    Regroup("hand_pose", dj, g.Name(), ".png");
    SameMiddle("hand_pose", di + h.Name(), dj + g.Name(), ".png");
    DigitsThenWord(di, h.Name(), dj, g.Name());
    DecimalStringInjective(i, j);
  }
}
