/** OPC UA node identifiers and their text form `ns=N;i=K` or `ns=N;s=K`. */
module NodeId {
  import opened Wrappers
  import opened Text
  import Decimal

  const U16_MAX := 0xFFFF
  const U32_MAX := 0xFFFF_FFFF

  newtype U16 = n: int | 0 <= n <= U16_MAX
  newtype U32 = n: int | 0 <= n <= U32_MAX

  datatype NodeIdInner = Numeric(number: U32) | Named(text: string)

  datatype OpcUaNodeId = OpcUaNodeId(namespace: U16, inner: NodeIdInner)

  datatype ParseError =
    | MissingPrefix
    | MissingSemicolon
    | InvalidNamespace(ns: string)
    | InvalidNumber(num: string)
    | MissingIdentifier

  function Display(id: OpcUaNodeId): string {
    Joined(Decimal.Print(id.namespace as int), PrintedBody(id.inner))
  }

  function PrintedBody(inner: NodeIdInner): string {
    match inner
    case Numeric(n) => "i=" + Decimal.Print(n as int)
    case Named(s) => "s=" + s
  }

  function Joined(ns: string, body: string): string {
    "ns=" + ns + ";" + body
  }

  function FromStr(s: string): Result<OpcUaNodeId, ParseError> {
    match StripPrefix(s, "ns=")
    case None => Err(MissingPrefix)
    case Some(rest) =>
      match SplitOnce(rest, ';')
      case None => Err(MissingSemicolon)
      case Some((ns, body)) => FromParts(ns, body)
  }

  function FromParts(ns: string, body: string): Result<OpcUaNodeId, ParseError> {
    match Decimal.ParseUnsigned(ns, U16_MAX)
    case None => Err(InvalidNamespace(ns))
    case Some(n) => WithInner(n as U16, body)
  }

  function WithInner(ns: U16, body: string): Result<OpcUaNodeId, ParseError> {
    match StripPrefix(body, "i=")
    case Some(num) => (
      match Decimal.ParseUnsigned(num, U32_MAX)
      case None => Err(InvalidNumber(num))
      case Some(k) => Ok(OpcUaNodeId(ns, Numeric(k as U32))))
    case None =>
      match StripPrefix(body, "s=")
      case Some(text) => Ok(OpcUaNodeId(ns, Named(text)))
      case None => Err(MissingIdentifier)
  }

  lemma PrintedTwoDigits()
    ensures Decimal.Print(2) == "2" && Decimal.Print(84) == "84"
  {
    assert Decimal.Print(84) == Decimal.Print(8) + [Decimal.DigitChar(4)];
  }

  /** The two printed forms, as the standard notation writes them. */
  lemma PrintedForms(text: string)
    ensures Display(OpcUaNodeId(2, Named(text))) == "ns=2;s=" + text
    ensures Display(OpcUaNodeId(0, Numeric(84))) == "ns=0;i=84"
  {
    PrintedTwoDigits();
    assert "ns=" + "2" + ";" + ("s=" + text) == "ns=2;s=" + text;
    assert "ns=" + "0" + ";" + ("i=" + "84") == "ns=0;i=84";
  }

  /** How any text of the form `ns=<digits>;<body>` is read, whatever `body` contains. */
  lemma FromStrOfJoined(ns: string, body: string)
    requires Decimal.AllDigits(ns)
    ensures FromStr(Joined(ns, body)) == FromParts(ns, body)
  {
    assert Joined(ns, body)[|"ns="|..] == ns + [';'] + body;
    assert forall i :: 0 <= i < |ns| ==> Decimal.IsDigit(ns[i]) && ns[i] != ';';
    SplitOnceAt(ns, ';', body);
  }

  /** A text for the inner identifier. */
  predicate WritesInner(body: string, inner: NodeIdInner) {
    match inner
    case Numeric(k) => "i=" <= body && Decimal.Writes(body[2..], k as int)
    case Named(text) => body == "s=" + text
  }

  lemma InnerIsReadIff(ns: U16, body: string, id: OpcUaNodeId)
    ensures WithInner(ns, body) == Ok(id) <==> ns == id.namespace && WritesInner(body, id.inner)
  {
    if "i=" <= body {
      assert body[0] == 'i';
      if id.inner.Numeric? {
        Decimal.ParsedIff(body[2..], U32_MAX, id.inner.number as int);
      }
    } else if "s=" <= body {
      assert body == "s=" + body[2..];
    }
  }

  lemma PartsAreReadIff(ns: string, body: string, id: OpcUaNodeId)
    ensures FromParts(ns, body) == Ok(id) <==> Decimal.Writes(ns, id.namespace as int) && WritesInner(body, id.inner)
  {
    Decimal.ParsedIff(ns, U16_MAX, id.namespace as int);
    if Decimal.ParseUnsigned(ns, U16_MAX).Some? {
      InnerIsReadIff(Decimal.ParseUnsigned(ns, U16_MAX).value as U16, body, id);
    }
  }

  /** The texts that are read as an identifier: `ns=`, a number, `;`, and `i=` with a number or `s=`
      with any text. Every other text is refused. */
  ghost predicate WritesId(s: string, id: OpcUaNodeId) {
    exists ns: string, body: string ::
      s == Joined(ns, body) && Decimal.Writes(ns, id.namespace as int) && WritesInner(body, id.inner)
  }

  lemma ReadIff(s: string, id: OpcUaNodeId)
    ensures FromStr(s) == Ok(id) <==> WritesId(s, id)
  {
    if FromStr(s) == Ok(id) {
      var rest := StripPrefix(s, "ns=").value;
      var (ns, body) := SplitOnce(rest, ';').value;
      PartsAreReadIff(ns, body, id);
      assert s == "ns=" + rest && s == Joined(ns, body);
    }
    if WritesId(s, id) {
      var ns: string, body: string :|
        s == Joined(ns, body) && Decimal.Writes(ns, id.namespace as int) && WritesInner(body, id.inner);
      assert s[|"ns="|..] == ns + [';'] + body;
      assert ';' !in ns;
      SplitOnceAt(ns, ';', body);
      PartsAreReadIff(ns, body, id);
    }
  }

  lemma WithInnerOfPrinted(ns: U16, inner: NodeIdInner)
    ensures WithInner(ns, PrintedBody(inner)) == Ok(OpcUaNodeId(ns, inner))
  {
    var body := PrintedBody(inner);
    assert body[2..] == match inner case Numeric(n) => Decimal.Print(n as int) case Named(s) => s;
    match inner
    case Numeric(n) => Decimal.ParseOfPrint(n as int, U32_MAX);
    case Named(s) => assert body[0] == 's';
  }

  /** Parsing the printed form gives back the identifier, even when its text contains `;` or `=`. */
  lemma FromStrOfDisplay(id: OpcUaNodeId)
    ensures FromStr(Display(id)) == Ok(id)
  {
    FromStrOfJoined(Decimal.Print(id.namespace as int), PrintedBody(id.inner));
    Decimal.ParseOfPrint(id.namespace as int, U16_MAX);
    WithInnerOfPrinted(id.namespace, id.inner);
  }

  /** Two identifiers never print alike, so the printed form can serve as a map key. */
  lemma DisplayIsInjective(a: OpcUaNodeId, b: OpcUaNodeId)
    requires Display(a) == Display(b)
    ensures a == b
  {
    FromStrOfDisplay(a);
    FromStrOfDisplay(b);
  }

  /** The namespace numeral, and the number of a numeric identifier, are written canonically. */
  ghost predicate CanonicalParts(ns: string, body: string) {
    Decimal.Canonical(ns) && ("i=" <= body ==> Decimal.Canonical(body[2..]))
  }

  ghost predicate CanonicalText(s: string) {
    exists ns: string, body: string :: s == Joined(ns, body) && CanonicalParts(ns, body)
  }

  lemma DisplayIsCanonical(id: OpcUaNodeId)
    ensures CanonicalText(Display(id))
  {
    var ns, body := Decimal.Print(id.namespace as int), PrintedBody(id.inner);
    Decimal.PrintIsCanonical(id.namespace as int);
    if id.inner.Numeric? {
      Decimal.PrintIsCanonical(id.inner.number as int);
      assert body[2..] == Decimal.Print(id.inner.number as int);
    } else {
      assert body[0] == 's';
    }
    assert CanonicalParts(ns, body);
  }

  lemma PrintedBodyOfWithInner(ns: U16, body: string)
    requires WithInner(ns, body).Ok?
    requires "i=" <= body ==> Decimal.Canonical(body[2..])
    ensures PrintedBody(WithInner(ns, body).value.inner) == body
    ensures WithInner(ns, body).value.namespace == ns
  {
    assert body == body[..2] + body[2..];
    if "i=" <= body {
      Decimal.PrintOfParse(body[2..], U32_MAX);
    }
  }

  lemma DisplayOfFromParts(ns: string, body: string)
    requires CanonicalParts(ns, body) && FromParts(ns, body).Ok?
    ensures Display(FromParts(ns, body).value) == Joined(ns, body)
  {
    Decimal.PrintOfParse(ns, U16_MAX);
    PrintedBodyOfWithInner(Decimal.ParseUnsigned(ns, U16_MAX).value as U16, body);
  }

  /** Printing undoes parsing exactly on the canonical texts: `+` signs and leading zeros
      are accepted by the parser but not reproduced. */
  lemma DisplayOfFromStr(s: string)
    requires FromStr(s).Ok?
    ensures Display(FromStr(s).value) == s <==> CanonicalText(s)
  {
    DisplayIsCanonical(FromStr(s).value);
    if CanonicalText(s) {
      var ns, body :| s == Joined(ns, body) && CanonicalParts(ns, body);
      FromStrOfJoined(ns, body);
      DisplayOfFromParts(ns, body);
    }
  }
}
