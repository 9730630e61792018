/** The results the core CLI prints, each read back field by field. */
module JsonResults {
  import opened Common
  import opened JsonText
  import opened JsonReader
  import opened JsonPrinter

  type Int32 = n: int | -0x8000_0000 <= n <= 0x7fff_ffff
  type Uint32 = n: int | 0 <= n <= 0xffff_ffff

  datatype CsrInfo = CsrInfo(
    subject: string,
    dnsNames: seq<string>,
    ipAddresses: seq<string>,
    publicKeyAlgorithm: string,
    publicKeySizeBits: Int32,
    signatureAlgorithm: string,
    extensionOids: seq<string>)

  datatype IssueResult = IssueResult(
    certificatePem: string,
    serialNumber: string,
    subject: string,
    notBefore: string,
    notAfter: string)

  datatype BackendInfo = BackendInfo(
    productProfile: string,
    edition: string,
    selectedBackend: string,
    fallbackEnabled: bool,
    backendId: string,
    dependency: string,
    version: string,
    readiness: string,
    capabilities: seq<string>,
    abiVersion: Uint32,
    buildFingerprint: string)

  function CsrFields(info: CsrInfo): Pairs {
    [("subject", JString(info.subject)),
     ("dns_names", JArray(info.dnsNames)),
     ("ip_addresses", JArray(info.ipAddresses)),
     ("public_key_algorithm", JString(info.publicKeyAlgorithm)),
     ("public_key_size_bits", JNumber(info.publicKeySizeBits)),
     ("signature_algorithm", JString(info.signatureAlgorithm)),
     ("extension_oids", JArray(info.extensionOids))]
  }

  function IssueFields(r: IssueResult): Pairs {
    [("certificate_pem", JString(r.certificatePem)),
     ("serial_number", JString(r.serialNumber)),
     ("subject", JString(r.subject)),
     ("not_before", JString(r.notBefore)),
     ("not_after", JString(r.notAfter))]
  }

  function CrlFields(crlPem: string): Pairs {
    [("crl_pem", JString(crlPem))]
  }

  function BackendFields(b: BackendInfo): Pairs {
    [("product_profile", JString(b.productProfile)),
     ("edition", JString(b.edition)),
     ("selected_backend", JString(b.selectedBackend)),
     ("fallback_enabled", JBool(b.fallbackEnabled)),
     ("backend_id", JString(b.backendId)),
     ("backend_dependency", JString(b.dependency)),
     ("backend_version", JString(b.version)),
     ("backend_readiness", JString(b.readiness)),
     ("backend_capabilities", JArray(b.capabilities)),
     ("backend_abi_version", JNumber(b.abiVersion)),
     ("backend_build_fingerprint", JString(b.buildFingerprint))]
  }

  predicate DistinctKeys(pairs: Pairs) {
    forall i, j :: 0 <= i < j < |pairs| ==> pairs[i].0 != pairs[j].0
  }

  /** Without repeated keys every field is in the map and nothing else is. */
  lemma {:induction false} LastWinsOfDistinct(pairs: Pairs)
    requires DistinctKeys(pairs)
    ensures forall i :: 0 <= i < |pairs| ==> pairs[i].0 in LastWins(pairs) && LastWins(pairs)[pairs[i].0] == pairs[i].1
    ensures |LastWins(pairs)| == |pairs|
  {
    if pairs != [] {
      var front := pairs[..|pairs| - 1];
      LastWinsOfDistinct(front);
      LastWinsKeys(front);
      assert pairs[|pairs| - 1].0 !in LastWins(front);
      forall i | 0 <= i < |pairs|
        ensures pairs[i].0 in LastWins(pairs) && LastWins(pairs)[pairs[i].0] == pairs[i].1
      {
        if i < |front| {
          assert front[i] == pairs[i];
        }
      }
    }
  }

  lemma {:induction false} LastWinsKeys(pairs: Pairs)
    ensures forall key :: key in LastWins(pairs) ==> exists i :: 0 <= i < |pairs| && pairs[i].0 == key
  {
    if pairs != [] {
      var front := pairs[..|pairs| - 1];
      LastWinsKeys(front);
      forall key | key in LastWins(pairs) ensures exists i :: 0 <= i < |pairs| && pairs[i].0 == key {
        if key in LastWins(front) {
          var i :| 0 <= i < |front| && front[i].0 == key;
          assert pairs[i].0 == key;
        } else {
          assert pairs[|pairs| - 1].0 == key;
        }
      }
    }
  }

  /** A text was read as an object with exactly these fields. */
  predicate HasExactly(o: Option<JsonObject>, pairs: Pairs) {
    && o.Some? && |o.value| == |pairs|
    && forall i :: 0 <= i < |pairs| ==> Has(o, pairs, i)
  }

  predicate Has(o: Option<JsonObject>, pairs: Pairs, i: nat)
    requires o.Some? && i < |pairs|
  {
    pairs[i].0 in o.value && o.value[pairs[i].0] == pairs[i].1
  }

  predicate PrintablePairs(pairs: Pairs) {
    forall i :: 0 <= i < |pairs| ==> PrintablePair(pairs[i])
  }

  lemma FieldsReadBack(pairs: Pairs)
    requires pairs != [] && PrintablePairs(pairs) && DistinctKeys(pairs)
    ensures HasExactly(ReadObject(FlatObject(pairs)), pairs)
  {
    FlatObjectReadsBack(pairs);
    LastWinsOfDistinct(pairs);
  }

  /** Only lower-case letters and underscores. */
  predicate LowerKey(key: string) {
    forall i :: 0 <= i < |key| ==> '_' <= key[i] <= 'z'
  }

  lemma LowerPairsPrintable(pairs: Pairs)
    requires forall i :: 0 <= i < |pairs| ==> LowerKey(pairs[i].0) && Printable(pairs[i].1)
    ensures PrintablePairs(pairs)
  {
  }

  // ---- every printer --------------------------------------------------------------------------------

  predicate Field(o: JsonObject, key: string, value: JsonValue) {
    key in o && o[key] == value
  }

  /** A text was read as an object with exactly the seven fields of the CSR information. */
  predicate IsCsrInfo(o: Option<JsonObject>, info: CsrInfo) {
    && o.Some? && |o.value| == 7
    && Field(o.value, "subject", JString(info.subject))
    && Field(o.value, "dns_names", JArray(info.dnsNames))
    && Field(o.value, "ip_addresses", JArray(info.ipAddresses))
    && Field(o.value, "public_key_algorithm", JString(info.publicKeyAlgorithm))
    && Field(o.value, "public_key_size_bits", JNumber(info.publicKeySizeBits))
    && Field(o.value, "signature_algorithm", JString(info.signatureAlgorithm))
    && Field(o.value, "extension_oids", JArray(info.extensionOids))
  }

  predicate IsIssueResult(o: Option<JsonObject>, r: IssueResult) {
    && o.Some? && |o.value| == 5
    && Field(o.value, "certificate_pem", JString(r.certificatePem))
    && Field(o.value, "serial_number", JString(r.serialNumber))
    && Field(o.value, "subject", JString(r.subject))
    && Field(o.value, "not_before", JString(r.notBefore))
    && Field(o.value, "not_after", JString(r.notAfter))
  }

  predicate IsCrlResult(o: Option<JsonObject>, crlPem: string) {
    o.Some? && |o.value| == 1 && Field(o.value, "crl_pem", JString(crlPem))
  }

  predicate IsBackendInfo(o: Option<JsonObject>, b: BackendInfo) {
    && o.Some? && |o.value| == 11
    && Field(o.value, "product_profile", JString(b.productProfile))
    && Field(o.value, "edition", JString(b.edition))
    && Field(o.value, "selected_backend", JString(b.selectedBackend))
    && Field(o.value, "fallback_enabled", JBool(b.fallbackEnabled))
    && Field(o.value, "backend_id", JString(b.backendId))
    && Field(o.value, "backend_dependency", JString(b.dependency))
    && Field(o.value, "backend_version", JString(b.version))
    && Field(o.value, "backend_readiness", JString(b.readiness))
    && Field(o.value, "backend_capabilities", JArray(b.capabilities))
    && Field(o.value, "backend_abi_version", JNumber(b.abiVersion))
    && Field(o.value, "backend_build_fingerprint", JString(b.buildFingerprint))
  }

  lemma CsrInfoReadsBack(info: CsrInfo)
    ensures IsCsrInfo(ReadObject(FlatObject(CsrFields(info))), info)
  {
    var fields := CsrFields(info);
    CsrFieldsPrintable(info);
    CsrFieldsDistinct(info);
    FieldsReadBack(fields);
    assert Has(ReadObject(FlatObject(fields)), fields, 0);
    assert Has(ReadObject(FlatObject(fields)), fields, 1);
    assert Has(ReadObject(FlatObject(fields)), fields, 2);
    assert Has(ReadObject(FlatObject(fields)), fields, 3);
    assert Has(ReadObject(FlatObject(fields)), fields, 4);
    assert Has(ReadObject(FlatObject(fields)), fields, 5);
    assert Has(ReadObject(FlatObject(fields)), fields, 6);
  }

  lemma IssueResultReadsBack(r: IssueResult)
    ensures IsIssueResult(ReadObject(FlatObject(IssueFields(r))), r)
  {
    var fields := IssueFields(r);
    IssueFieldsPrintable(r);
    IssueFieldsDistinct(r);
    FieldsReadBack(fields);
    assert Has(ReadObject(FlatObject(fields)), fields, 0);
    assert Has(ReadObject(FlatObject(fields)), fields, 1);
    assert Has(ReadObject(FlatObject(fields)), fields, 2);
    assert Has(ReadObject(FlatObject(fields)), fields, 3);
    assert Has(ReadObject(FlatObject(fields)), fields, 4);
  }

  lemma CrlResultReadsBack(crlPem: string)
    ensures IsCrlResult(ReadObject(FlatObject(CrlFields(crlPem))), crlPem)
  {
    var fields := CrlFields(crlPem);
    LowerPairsPrintable(fields);
    FieldsReadBack(fields);
    assert Has(ReadObject(FlatObject(fields)), fields, 0);
  }

  lemma BackendInfoReadsBack(b: BackendInfo)
    ensures IsBackendInfo(ReadObject(FlatObject(BackendFields(b))), b)
  {
    var fields := BackendFields(b);
    BackendFieldsPrintable(b);
    BackendFieldsDistinct(b);
    FieldsReadBack(fields);
    assert Has(ReadObject(FlatObject(fields)), fields, 0);
    assert Has(ReadObject(FlatObject(fields)), fields, 1);
    assert Has(ReadObject(FlatObject(fields)), fields, 2);
    assert Has(ReadObject(FlatObject(fields)), fields, 3);
    assert Has(ReadObject(FlatObject(fields)), fields, 4);
    assert Has(ReadObject(FlatObject(fields)), fields, 5);
    assert Has(ReadObject(FlatObject(fields)), fields, 6);
    assert Has(ReadObject(FlatObject(fields)), fields, 7);
    assert Has(ReadObject(FlatObject(fields)), fields, 8);
    assert Has(ReadObject(FlatObject(fields)), fields, 9);
    assert Has(ReadObject(FlatObject(fields)), fields, 10);
  }

  method CsrInfoToJson(info: CsrInfo) returns (text: string)
    ensures text == FlatObject(CsrFields(info))
    ensures IsCsrInfo(ReadObject(text), info)
  {
    ghost var fields := CsrFields(info);
    var value := JsonString(info.subject);
    text := BeginObject("subject", value, fields);
    value := JsonStringArray(info.dnsNames);
    text := AddField(text, "dns_names", value, fields, 1);
    value := JsonStringArray(info.ipAddresses);
    text := AddField(text, "ip_addresses", value, fields, 2);
    value := JsonString(info.publicKeyAlgorithm);
    text := AddField(text, "public_key_algorithm", value, fields, 3);
    text := AddField(text, "public_key_size_bits", NumberToJson(info.publicKeySizeBits), fields, 4);
    value := JsonString(info.signatureAlgorithm);
    text := AddField(text, "signature_algorithm", value, fields, 5);
    value := JsonStringArray(info.extensionOids);
    text := AddField(text, "extension_oids", value, fields, 6);
    text := text + "}";
    CsrInfoReadsBack(info);
  }

  method IssueResultToJson(r: IssueResult) returns (text: string)
    ensures text == FlatObject(IssueFields(r))
    ensures IsIssueResult(ReadObject(text), r)
  {
    ghost var fields := IssueFields(r);
    var value := JsonString(r.certificatePem);
    text := BeginObject("certificate_pem", value, fields);
    value := JsonString(r.serialNumber);
    text := AddField(text, "serial_number", value, fields, 1);
    value := JsonString(r.subject);
    text := AddField(text, "subject", value, fields, 2);
    value := JsonString(r.notBefore);
    text := AddField(text, "not_before", value, fields, 3);
    value := JsonString(r.notAfter);
    text := AddField(text, "not_after", value, fields, 4);
    text := text + "}";
    IssueResultReadsBack(r);
  }

  method CrlResultToJson(crlPem: string) returns (text: string)
    ensures text == FlatObject(CrlFields(crlPem))
    ensures IsCrlResult(ReadObject(text), crlPem)
  {
    var value := JsonString(crlPem);
    text := BeginObject("crl_pem", value, CrlFields(crlPem));
    text := text + "}";
    CrlResultReadsBack(crlPem);
  }

  method BackendInfoToJson(b: BackendInfo) returns (text: string)
    ensures text == FlatObject(BackendFields(b))
    ensures IsBackendInfo(ReadObject(text), b)
  {
    ghost var fields := BackendFields(b);
    text := ProfileToJson(b);
    text := SelectionToJson(text, b, fields);
    text := DependencyToJson(text, b, fields);
    text := AbilitiesToJson(text, b, fields);
    text := text + "}";
    BackendInfoReadsBack(b);
  }

  method DependencyToJson(before: string, b: BackendInfo, ghost fields: Pairs) returns (text: string)
    requires |fields| == 11 && fields[5] == ("backend_dependency", JString(b.dependency))
    requires fields[6] == ("backend_version", JString(b.version))
    requires fields[7] == ("backend_readiness", JString(b.readiness)) && WrittenUpTo(before, fields, 5)
    ensures WrittenUpTo(text, fields, 8)
  {
    var value := JsonString(b.dependency);
    text := AddField(before, "backend_dependency", value, fields, 5);
    value := JsonString(b.version);
    text := AddField(text, "backend_version", value, fields, 6);
    value := JsonString(b.readiness);
    text := AddField(text, "backend_readiness", value, fields, 7);
  }

  method AbilitiesToJson(before: string, b: BackendInfo, ghost fields: Pairs) returns (text: string)
    requires |fields| == 11 && fields[8] == ("backend_capabilities", JArray(b.capabilities))
    requires fields[9] == ("backend_abi_version", JNumber(b.abiVersion))
    requires fields[10] == ("backend_build_fingerprint", JString(b.buildFingerprint)) && WrittenUpTo(before, fields, 8)
    ensures WrittenUpTo(text, fields, 11)
  {
    var value := JsonStringArray(b.capabilities);
    text := AddField(before, "backend_capabilities", value, fields, 8);
    text := AddField(text, "backend_abi_version", NumberToJson(b.abiVersion), fields, 9);
    value := JsonString(b.buildFingerprint);
    text := AddField(text, "backend_build_fingerprint", value, fields, 10);
  }

  /** The fields of the product profile. */
  method ProfileToJson(b: BackendInfo) returns (text: string)
    ensures WrittenUpTo(text, BackendFields(b), 2)
  {
    ghost var fields := BackendFields(b);
    var value := JsonString(b.productProfile);
    text := BeginObject("product_profile", value, fields);
    value := JsonString(b.edition);
    text := AddField(text, "edition", value, fields, 1);
  }

  /** The back end that was selected. */
  method SelectionToJson(before: string, b: BackendInfo, ghost fields: Pairs) returns (text: string)
    requires |fields| == 11 && fields[2] == ("selected_backend", JString(b.selectedBackend))
    requires fields[3] == ("fallback_enabled", JBool(b.fallbackEnabled))
    requires fields[4] == ("backend_id", JString(b.backendId)) && WrittenUpTo(before, fields, 2)
    ensures WrittenUpTo(text, fields, 5)
  {
    var value := JsonString(b.selectedBackend);
    text := AddField(before, "selected_backend", value, fields, 2);
    text := AddField(text, "fallback_enabled", if b.fallbackEnabled then "true" else "false", fields, 3);
    value := JsonString(b.backendId);
    text := AddField(text, "backend_id", value, fields, 4);
  }

  lemma CsrFieldsPrintable(info: CsrInfo)
    ensures PrintablePairs(CsrFields(info))
  {
    CsrKeys();
    LowerPairsPrintable(CsrFields(info));
  }

  lemma CsrKeys()
    ensures LowerKey("subject") && LowerKey("dns_names") && LowerKey("ip_addresses") && LowerKey("public_key_algorithm")
    ensures LowerKey("public_key_size_bits") && LowerKey("signature_algorithm") && LowerKey("extension_oids")
  {
  }

  lemma CsrFieldsDistinct(info: CsrInfo)
    ensures DistinctKeys(CsrFields(info))
  {
  }

  lemma IssueFieldsPrintable(r: IssueResult)
    ensures PrintablePairs(IssueFields(r))
  {
    IssueKeys();
    LowerPairsPrintable(IssueFields(r));
  }

  lemma IssueKeys()
    ensures LowerKey("certificate_pem") && LowerKey("serial_number") && LowerKey("subject")
    ensures LowerKey("not_before") && LowerKey("not_after")
  {
  }

  lemma IssueFieldsDistinct(r: IssueResult)
    ensures DistinctKeys(IssueFields(r))
  {
  }

  lemma BackendFieldsPrintable(b: BackendInfo)
    ensures PrintablePairs(BackendFields(b))
  {
    ProfileKeys();
    BackendKeys();
    LowerPairsPrintable(BackendFields(b));
  }

  lemma ProfileKeys()
    ensures LowerKey("product_profile") && LowerKey("edition") && LowerKey("selected_backend")
    ensures LowerKey("fallback_enabled")
    ensures LowerKey("backend_id") && LowerKey("backend_dependency")
  {
  }

  lemma BackendKeys()
    ensures LowerKey("backend_version") && LowerKey("backend_readiness") && LowerKey("backend_capabilities")
    ensures LowerKey("backend_abi_version") && LowerKey("backend_build_fingerprint")
  {
  }

  lemma BackendFieldsDistinct(b: BackendInfo)
    ensures DistinctKeys(BackendFields(b))
  {
  }
}
