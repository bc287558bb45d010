/**
 * The blank-node names JenaRDFParser issues. Its name generator holds a Java
 * `AtomicInteger` starting at 0; each call of `next()` increments it and
 * returns "_:t" followed by the decimal value. The counter is a 32-bit Java
 * `int`, so it wraps from 2^31 - 1 to -2^31; this module models that.
 *
 * The parser's map from native label to name is described here by the
 * sequence of labels in the order they were first seen: the k-th label
 * (1-based) is given the k-th issued name.
 */
module BlankNames {

  const IntMin: int := -0x8000_0000
  const IntMax: int := 0x7fff_ffff
  /** The number of distinct Java `int` values, 2^32. */
  const IntRange: int := 0x1_0000_0000
  const NamePrefix: string := "_:t"

  predicate IsJavaInt(i: int) {
    IntMin <= i <= IntMax
  }

  /** The Java `int` that the mathematical integer k wraps to. */
  function Wrap32(k: int): (r: int)
    ensures IsJavaInt(r)
  {
    (k - IntMin) % IntRange + IntMin
  }

  /** Within one window of 2^32 consecutive values starting at 0, wrapping
      is the identity below 2^31 and subtracts 2^32 above it. */
  lemma Wrap32Window(k: int)
    requires 0 <= k <= IntRange
    ensures Wrap32(k) == if k <= IntMax then k else k - IntRange
  {
    if k <= IntMax {
      assert 0 <= k - IntMin < IntRange;
    } else {
      assert IntRange <= k - IntMin < 2 * IntRange;
      assert (k - IntMin) % IntRange == k - IntMin - IntRange;
    }
  }

  /** `AtomicInteger.incrementAndGet` on a Java `int`: add one, wrapping. */
  function JavaIncrement(i: int): (r: int)
    requires IsJavaInt(i)
    ensures IsJavaInt(r)
  {
    if i == IntMax then IntMin else i + 1
  }

  /** Incrementing a wrapped counter agrees with wrapping the incremented count. */
  lemma WrapIncrement(k: int)
    ensures JavaIncrement(Wrap32(k)) == Wrap32(k + 1)
  {
    var q := (k - IntMin) / IntRange;
    var r := (k - IntMin) % IntRange;
    assert k - IntMin == q * IntRange + r;
    if r == IntRange - 1 {
      assert k + 1 - IntMin == (q + 1) * IntRange;
      assert (k + 1 - IntMin) % IntRange == 0;
    } else {
      assert k + 1 - IntMin == q * IntRange + (r + 1);
      assert (k + 1 - IntMin) % IntRange == r + 1;
    }
  }

  function DigitChar(d: nat): (c: char)
    requires d < 10
    ensures '0' <= c <= '9'
  {
    (('0' as int) + d) as char
  }

  function DigitValue(c: char): int {
    (c as int) - ('0' as int)
  }

  /** `Integer.toString`: a minus sign before a negative value, then its
      decimal digits without leading zeros. */
  function JavaIntToString(i: int): (s: string)
    ensures |s| >= 1
    ensures s[0] == '-' <==> i < 0
    decreases if i < 0 then 1 - i else i
  {
    if i < 0 then "-" + JavaIntToString(-i)
    else if i < 10 then [DigitChar(i)]
    else JavaIntToString(i / 10) + [DigitChar(i % 10)]
  }

  /** The value of a string of decimal digits. */
  function ParseDecimal(s: string): int {
    if s == [] then 0 else ParseDecimal(s[..|s| - 1]) * 10 + DigitValue(s[|s| - 1])
  }

  /** Reading back the digits of a natural number gives the number. */
  lemma {:induction false} DecimalRoundTrip(n: nat)
    ensures ParseDecimal(JavaIntToString(n)) == n
    decreases n
  {
    var s := JavaIntToString(n);
    if n < 10 {
      assert s[..|s| - 1] == [];
    } else {
      DecimalRoundTrip(n / 10);
      assert s[..|s| - 1] == JavaIntToString(n / 10);
    }
  }

  /** `Integer.parseInt` on the strings JavaIntToString produces. */
  function ParseJavaInt(s: string): int {
    if |s| > 0 && s[0] == '-' then -ParseDecimal(s[1..]) else ParseDecimal(s)
  }

  lemma JavaIntRoundTrip(i: int)
    ensures ParseJavaInt(JavaIntToString(i)) == i
  {
    if i < 0 {
      DecimalRoundTrip(-i);
      assert JavaIntToString(i)[1..] == JavaIntToString(-i);
    } else {
      DecimalRoundTrip(i);
    }
  }

  /** The value of the generator's counter after k calls of `next()`: it
      starts at 0 and each call increments it. */
  function Counter(k: nat): (r: int)
    ensures IsJavaInt(r)
  {
    if k == 0 then 0 else JavaIncrement(Counter(k - 1))
  }

  /** After k calls the counter holds k wrapped to a Java `int`. */
  lemma {:induction false} CounterWraps(k: nat)
    ensures Counter(k) == Wrap32(k)
  {
    if k == 0 {
      Wrap32Window(0);
    } else {
      CounterWraps(k - 1);
      WrapIncrement(k - 1);
    }
  }

  /** The string `_ng.next()` returns on its k-th call. */
  function BlankName(k: nat): string {
    NamePrefix + JavaIntToString(Counter(k))
  }

  /** The first name issued is "_:t1". */
  lemma FirstBlankName()
    ensures BlankName(1) == "_:t1"
  {
    assert Counter(1) == 1;
  }

  /** The first 2^32 calls of the generator return distinct names. */
  lemma BlankNameInjective(j: nat, k: nat)
    requires 1 <= j <= IntRange && 1 <= k <= IntRange
    requires j != k
    ensures BlankName(j) != BlankName(k)
  {
    if BlankName(j) == BlankName(k) {
      var sj, sk := JavaIntToString(Counter(j)), JavaIntToString(Counter(k));
      assert BlankName(j)[|NamePrefix|..] == sj;
      assert BlankName(k)[|NamePrefix|..] == sk;
      JavaIntRoundTrip(Counter(j));
      JavaIntRoundTrip(Counter(k));
      CounterWraps(j);
      CounterWraps(k);
      Wrap32Window(j);
      Wrap32Window(k);
      assert false;
    }
  }

  /** Because the counter is a 32-bit `int`, the 2^32 + 1-st name repeats the first. */
  lemma BlankNameRepeats()
    ensures BlankName(IntRange + 1) == BlankName(1)
  {
    var k := IntRange + 1;
    assert k - IntMin == IntRange + (1 - IntMin);
    assert (k - IntMin) % IntRange == 1 - IntMin;
    assert Wrap32(k) == Wrap32(1) by { Wrap32Window(1); }
    CounterWraps(k);
    CounterWraps(1);
  }

  // ---------------------------------------------------------------------
  // The label sequence behind the parser's blank-node map

  predicate Distinct(s: seq<string>) {
    forall i, j :: 0 <= i < j < |s| ==> s[i] != s[j]
  }

  lemma DistinctSnoc(s: seq<string>, x: string)
    requires Distinct(s) && x !in s
    ensures Distinct(s + [x])
  {
  }

  /** The position at which l was first recorded. */
  function IndexOf(labels: seq<string>, l: string): (i: nat)
    requires l in labels
    ensures i < |labels| && labels[i] == l
    ensures l !in labels[..i]
  {
    if labels[0] == l then 0
    else
      var i := 1 + IndexOf(labels[1..], l);
      assert labels[..i] == [labels[0]] + labels[1..][..i - 1];
      i
  }

  /** The name the map holds for a recorded label. */
  function NameOf(labels: seq<string>, l: string): string
    requires l in labels
  {
    BlankName(IndexOf(labels, l) + 1)
  }

  /** The labels after one lookup of l: a new label is added at the end. */
  function Record(labels: seq<string>, l: string): (r: seq<string>)
    ensures l in r
  {
    if l in labels then labels else labels + [l]
  }

  /** The labels after looking up every label of ls, in order. */
  function RecordAll(labels: seq<string>, ls: seq<string>): seq<string>
    decreases |ls|
  {
    if ls == [] then labels else Record(RecordAll(labels, ls[..|ls| - 1]), ls[|ls| - 1])
  }

  /** Recording only ever appends, keeps the labels distinct, and holds
      exactly the old labels and the looked-up ones. */
  lemma {:induction false} RecordAllExtends(labels: seq<string>, ls: seq<string>)
    ensures labels <= RecordAll(labels, ls)
    ensures Distinct(labels) ==> Distinct(RecordAll(labels, ls))
    ensures forall l :: l in RecordAll(labels, ls) <==> l in labels || l in ls
    decreases |ls|
  {
    if ls != [] {
      var init, last := ls[..|ls| - 1], ls[|ls| - 1];
      RecordAllExtends(labels, init);
      assert ls == init + [last];
      var r := RecordAll(labels, init);
      assert forall l :: l in ls <==> l in init || l == last;
      if last !in r {
        assert Record(r, last) == r + [last];
      }
    }
  }

  lemma {:induction false} RecordAllAppend(labels: seq<string>, a: seq<string>, b: seq<string>)
    ensures RecordAll(labels, a + b) == RecordAll(RecordAll(labels, a), b)
    decreases |b|
  {
    if b == [] {
      assert a + b == a;
    } else {
      var ab := a + b;
      assert ab[..|ab| - 1] == a + b[..|b| - 1];
      assert ab[|ab| - 1] == b[|b| - 1];
      RecordAllAppend(labels, a, b[..|b| - 1]);
    }
  }

  /** A label keeps its name however many labels are recorded after it. */
  lemma NameStable(labels: seq<string>, later: seq<string>, l: string)
    requires labels <= later
    requires l in labels
    ensures l in later && NameOf(later, l) == NameOf(labels, l)
  {
    IndexOfPrefix(labels, later, l);
  }

  /** The first occurrence of a label lies in any prefix that holds it. */
  lemma IndexOfPrefix(labels: seq<string>, later: seq<string>, l: string)
    requires labels <= later
    requires l in labels
    ensures l in later && IndexOf(later, l) == IndexOf(labels, l)
  {
    var i := IndexOf(labels, l);
    assert later[..i] == labels[..i];
    assert later[i] == l;
    var j := IndexOf(later, l);
    assert forall k :: 0 <= k < i ==> later[k] != l by {
      forall k | 0 <= k < i ensures later[k] != l {
        assert later[k] == labels[..i][k];
      }
    }
    assert forall k :: 0 <= k < j ==> later[k] != l by {
      forall k | 0 <= k < j ensures later[k] != l {
        assert later[k] == later[..j][k];
      }
    }
  }

  /** Distinct recorded labels have distinct names while at most 2^32 have been recorded. */
  lemma NamesInjective(labels: seq<string>, a: string, b: string)
    requires |labels| <= IntRange
    requires a in labels && b in labels && a != b
    ensures NameOf(labels, a) != NameOf(labels, b)
  {
    IndexOfInjective(labels, a, b);
    BlankNameInjective(IndexOf(labels, a) + 1, IndexOf(labels, b) + 1);
  }

  lemma IndexOfInjective(labels: seq<string>, a: string, b: string)
    requires a in labels && b in labels && a != b
    ensures IndexOf(labels, a) != IndexOf(labels, b)
  {
  }

  /** In a distinct label sequence each label's name is given by its position. */
  lemma NameAtPosition(labels: seq<string>, i: nat)
    requires Distinct(labels) && i < |labels|
    ensures NameOf(labels, labels[i]) == BlankName(i + 1)
  {
    var j := IndexOf(labels, labels[i]);
    assert j == i;
  }

  /** The blank-node map the recorded labels give: the k-th label with the
      k-th issued name. */
  function NameMap(labels: seq<string>): map<string, string>
    decreases |labels|
  {
    if labels == [] then map[]
    else
      var init := labels[..|labels| - 1];
      NameMap(init)[labels[|labels| - 1] := BlankName(|init| + 1)]
  }

  /** Putting a new label with the next name extends the map. */
  lemma NameMapSnoc(labels: seq<string>, l: string)
    ensures NameMap(labels + [l]) == NameMap(labels)[l := BlankName(|labels| + 1)]
  {
    assert (labels + [l])[..|labels|] == labels;
  }

  /** The map holds exactly the recorded labels, one entry per label, each
      with its name. */
  lemma {:induction false} NameMapContents(labels: seq<string>)
    requires Distinct(labels)
    ensures |NameMap(labels)| == |labels|
    ensures forall l :: l in NameMap(labels) <==> l in labels
    ensures forall l :: l in labels ==> NameMap(labels)[l] == NameOf(labels, l)
    decreases |labels|
  {
    if labels != [] {
      var init, last := labels[..|labels| - 1], labels[|labels| - 1];
      assert labels == init + [last];
      assert Distinct(init) by {
        assert forall i :: 0 <= i < |init| ==> init[i] == labels[i];
      }
      NameMapContents(init);
      assert last !in init;
      NameAtPosition(labels, |labels| - 1);
      forall l | l in init
        ensures NameMap(labels)[l] == NameOf(labels, l)
      {
        NameStable(init, labels, l);
      }
    }
  }

  /** The map later agrees with names on every label names holds. */
  predicate Extends(names: map<string, string>, later: map<string, string>) {
    forall l :: l in names ==> l in later && later[l] == names[l]
  }

  /** Looking up a label the map already holds changes nothing. */
  lemma RecordKnown(labels: seq<string>, l: string)
    requires Distinct(labels) && l in NameMap(labels)
    ensures l in labels && Record(labels, l) == labels
    ensures NameMap(labels)[l] == NameOf(labels, l)
  {
    NameMapContents(labels);
  }

  /** Looking up a new label records it with the next name. */
  lemma RecordNew(labels: seq<string>, l: string)
    requires Distinct(labels) && l !in NameMap(labels)
    ensures Record(labels, l) == labels + [l] && Distinct(labels + [l])
    ensures NameMap(labels + [l]) == NameMap(labels)[l := BlankName(|labels| + 1)]
    ensures Extends(NameMap(labels), NameMap(labels + [l]))
    ensures NameOf(labels + [l], l) == BlankName(|labels| + 1)
  {
    NameMapContents(labels);
    NameMapSnoc(labels, l);
    DistinctSnoc(labels, l);
    NameAtPosition(labels + [l], |labels|);
  }

  lemma ExtendsTransitive(a: map<string, string>, b: map<string, string>, c: map<string, string>)
    requires Extends(a, b) && Extends(b, c)
    ensures Extends(a, c)
  {
  }

  /** Recording more labels only adds entries to the map. */
  lemma NameMapGrows(labels: seq<string>, later: seq<string>)
    requires labels <= later && Distinct(later)
    ensures Extends(NameMap(labels), NameMap(later))
  {
    assert Distinct(labels) by {
      assert forall i :: 0 <= i < |labels| ==> labels[i] == later[i];
    }
    NameMapContents(labels);
    NameMapContents(later);
    forall l | l in labels
      ensures NameOf(later, l) == NameOf(labels, l)
    {
      NameStable(labels, later, l);
    }
  }

  /** The prefix that marks a blank-node identifier. */
  const BlankPrefix: string := "_:"

  predicate InjectiveNames(names: map<string, string>) {
    forall a, b :: a in names && b in names && a != b ==> names[a] != names[b]
  }

  predicate BlankIdentifiers(names: map<string, string>) {
    forall l :: l in names ==> BlankPrefix <= names[l]
  }

  lemma BlankNameIsBlankIdentifier(k: nat)
    ensures BlankPrefix <= BlankName(k)
  {
    assert BlankName(k)[..2] == BlankPrefix;
  }

  /** While at most 2^32 labels are recorded, distinct labels have distinct
      names, and every name reads as a blank-node identifier. */
  lemma NameMapInjective(labels: seq<string>)
    requires Distinct(labels) && |labels| <= IntRange
    ensures InjectiveNames(NameMap(labels))
    ensures BlankIdentifiers(NameMap(labels))
  {
    var m := NameMap(labels);
    NameMapContents(labels);
    forall a, b | a in m && b in m && a != b
      ensures m[a] != m[b]
    {
      NamesInjective(labels, a, b);
    }
    forall l | l in m
      ensures BlankPrefix <= m[l]
    {
      BlankNameIsBlankIdentifier(IndexOf(labels, l) + 1);
    }
  }
}
