/** The display filter of the capture window (Filter.OutThis). Three criteria
    typed by the user, each either empty ("don't care") or a substring that the
    packet's field must contain. The source spells out all eight
    empty/non-empty combinations as separate `if` statements; OutThis below
    follows that shape, and the lemmas show it is the conjunction of the
    non-empty criteria. */
module Filter {
  import opened Common
  import opened Packets

  /** The texts of the source-IP, destination-IP and type filter boxes. They
      are used verbatim: the `Trim` calls of the source discard their results. */
  datatype Criteria = Criteria(sourceIp: string, destinationIp: string, ethType: string)

  /** Evaluating the filter either answers, or throws the
      NullReferenceException raised by `SourceIP.ToString()` or
      `DestinationIP.ToString()` on a frame without an IP layer. */
  datatype Verdict = Answer(accept: bool) | NullReference

  /** `packetWrapper.SourceIP.ToString().Contains(text)` */
  function SourceTest(w: PacketWrapper, text: string): Verdict {
    if w.ip.None? then NullReference else Answer(Contains(w.ip.value.source.text, text))
  }

  /** `packetWrapper.DestinationIP.ToString().Contains(text)` */
  function DestinationTest(w: PacketWrapper, text: string): Verdict {
    if w.ip.None? then NullReference else Answer(Contains(w.ip.value.destination.text, text))
  }

  /** `packetWrapper.Type.ToString().ToLower().Contains(text.ToLower())` */
  function TypeTest(w: PacketWrapper, text: string): Verdict {
    Answer(Contains(Lower(w.typeName), Lower(text)))
  }

  /** C# `a && b` when evaluating an operand may throw: the right operand is
      only evaluated when the left one is true. */
  function AndAlso(a: Verdict, b: Verdict): Verdict {
    match a
    case NullReference => NullReference
    case Answer(x) => if x then b else Answer(false)
  }

  /** One statement `if (guard) { if (test) { answer = true; } }` of the
      cascade, applied to the value of `answer` so far. */
  function Branch(answer: Verdict, guard: bool, test: Verdict): Verdict {
    if answer.NullReference? || !guard then answer
    else if test.NullReference? then NullReference
    else if test.accept then Answer(true)
    else answer
  }

  /** Filter.OutThis: the eight `if` statements in source order. The
      `packetStrings` argument of the source is never used and is dropped. */
  function OutThis(c: Criteria, w: PacketWrapper): Verdict {
    Branch(Branch(Branch(Branch(Branch(Branch(Branch(Branch(Answer(false),
      c.sourceIp != "" && c.destinationIp == "" && c.ethType == "", SourceTest(w, c.sourceIp)),
      c.sourceIp != "" && c.destinationIp != "" && c.ethType == "", AndAlso(SourceTest(w, c.sourceIp), DestinationTest(w, c.destinationIp))),
      c.sourceIp != "" && c.destinationIp != "" && c.ethType != "", AndAlso(AndAlso(SourceTest(w, c.sourceIp), DestinationTest(w, c.destinationIp)), TypeTest(w, c.ethType))),
      c.sourceIp != "" && c.destinationIp == "" && c.ethType != "", AndAlso(SourceTest(w, c.sourceIp), TypeTest(w, c.ethType))),
      c.sourceIp == "" && c.destinationIp != "" && c.ethType != "", AndAlso(DestinationTest(w, c.destinationIp), TypeTest(w, c.ethType))),
      c.sourceIp == "" && c.destinationIp != "" && c.ethType == "", DestinationTest(w, c.destinationIp)),
      c.sourceIp == "" && c.destinationIp == "" && c.ethType != "", TypeTest(w, c.ethType)),
      c.sourceIp == "" && c.destinationIp == "" && c.ethType == "", Answer(true))
  }

  /** The capture worker enqueues a wrapper only when the filter returns true;
      a thrown exception is caught and the wrapper is dropped. */
  predicate Accepts(c: Criteria, w: PacketWrapper) {
    OutThis(c, w) == Answer(true)
  }

  // ---------------------------------------------------------------------
  // Reference definition: the AND of the non-empty criteria.

  predicate SourceOk(c: Criteria, w: PacketWrapper) {
    c.sourceIp == "" || (w.ip.Some? && Contains(w.ip.value.source.text, c.sourceIp))
  }

  predicate DestinationOk(c: Criteria, w: PacketWrapper) {
    c.destinationIp == "" || (w.ip.Some? && Contains(w.ip.value.destination.text, c.destinationIp))
  }

  predicate TypeOk(c: Criteria, w: PacketWrapper) {
    c.ethType == "" || Contains(Lower(w.typeName), Lower(c.ethType))
  }

  function Conjunction(c: Criteria, w: PacketWrapper): Verdict {
    if (c.sourceIp != "" || c.destinationIp != "") && w.ip.None? then NullReference
    else Answer(SourceOk(c, w) && DestinationOk(c, w) && TypeOk(c, w))
  }

  /** The eight-branch cascade computes the conjunction, exceptions included. */
  lemma OutThisIsConjunction(c: Criteria, w: PacketWrapper)
    ensures OutThis(c, w) == Conjunction(c, w)
  {
  }

  /** Accepted exactly when every non-empty criterion holds. */
  lemma AcceptsIff(c: Criteria, w: PacketWrapper)
    ensures Accepts(c, w) <==> SourceOk(c, w) && DestinationOk(c, w) && TypeOk(c, w)
  {
    OutThisIsConjunction(c, w);
  }

  /** With every box empty, every packet passes, including one without IP. */
  lemma PassThrough(w: PacketWrapper)
    ensures OutThis(Criteria("", "", ""), w) == Answer(true)
  {
  }

  /** A non-empty IP criterion on a frame without IP throws, so the frame is
      never displayed. */
  lemma IpCriterionWithoutIp(c: Criteria, w: PacketWrapper)
    requires c.sourceIp != "" || c.destinationIp != ""
    requires w.ip.None?
    ensures OutThis(c, w) == NullReference && !Accepts(c, w)
  {
    OutThisIsConjunction(c, w);
  }

  /** `narrow` constrains at least what `wide` constrains: every non-empty
      box of `wide` holds the same text in `narrow`. */
  predicate Narrows(narrow: Criteria, wide: Criteria) {
    && (wide.sourceIp == "" || narrow.sourceIp == wide.sourceIp)
    && (wide.destinationIp == "" || narrow.destinationIp == wide.destinationIp)
    && (wide.ethType == "" || narrow.ethType == wide.ethType)
  }

  /** Filling in further criteria never turns a rejection into an acceptance. */
  lemma NarrowingKeepsRejections(narrow: Criteria, wide: Criteria, w: PacketWrapper)
    requires Narrows(narrow, wide)
    requires Accepts(narrow, w)
    ensures Accepts(wide, w)
  {
    AcceptsIff(narrow, w);
    AcceptsIff(wide, w);
  }

  /** The type criterion ignores letter case. */
  lemma TypeIgnoresCase(c: Criteria, t: string, w: PacketWrapper)
    requires Lower(t) == Lower(c.ethType)
    ensures OutThis(c.(ethType := t), w) == OutThis(c, w)
  {
    OutThisIsConjunction(c, w);
    OutThisIsConjunction(c.(ethType := t), w);
    assert (t == "") == (c.ethType == "") by {
      assert |Lower(t)| == |t| && |Lower(c.ethType)| == |c.ethType|;
    }
  }

  /** A string only contains strings whose first character occurs in it. */
  lemma {:induction false} ContainedFirstCharOccurs(s: string, t: string)
    requires Contains(s, t) && t != ""
    ensures t[0] in s
    decreases |s|
  {
    if t <= s {
      assert s[0] == t[0];
    } else {
      ContainedFirstCharOccurs(s[1..], t);
    }
  }

  /** Every character of a contained text occurs in the string. */
  lemma {:induction false} ContainedCharOccurs(s: string, t: string, k: nat)
    requires Contains(s, t) && k < |t|
    ensures t[k] in s
    decreases |s|
  {
    if t <= s {
      assert s[k] == t[k];
    } else {
      ContainedCharOccurs(s[1..], t, k);
    }
  }

  /** IP criteria are compared case-sensitively: a source box holding an
      ASCII capital (such as "FE80") rejects every packet whose source
      address is written without capitals, as .NET writes IPv6 addresses. */
  lemma IpCaseSensitive(w: PacketWrapper, c: Criteria, k: nat)
    requires w.ip.Some? && forall i :: 0 <= i < |w.ip.value.source.text| ==> !('A' <= w.ip.value.source.text[i] <= 'Z')
    requires k < |c.sourceIp| && 'A' <= c.sourceIp[k] <= 'Z'
    ensures !Accepts(c, w)
  {
    AcceptsIff(c, w);
    if Contains(w.ip.value.source.text, c.sourceIp) {
      ContainedCharOccurs(w.ip.value.source.text, c.sourceIp, k);
    }
  }

  /** Criteria are not trimmed: a source criterion with a leading space
      rejects every packet whose source address has no space in it, whatever
      the rest of the criterion says. */
  lemma CriteriaNotTrimmed(w: PacketWrapper, rest: string, destination: string, ethType: string)
    requires w.ip.Some? && ' ' !in w.ip.value.source.text
    ensures !Accepts(Criteria([' '] + rest, destination, ethType), w)
  {
    var c := Criteria([' '] + rest, destination, ethType);
    AcceptsIff(c, w);
    if Contains(w.ip.value.source.text, c.sourceIp) {
      ContainedFirstCharOccurs(w.ip.value.source.text, c.sourceIp);
    }
  }
}
