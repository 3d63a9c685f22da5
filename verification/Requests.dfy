/**
 * The requests of pb.CA and their privpb.Backend copies, as the field tags of the generated
 * structs declare them.
 */
module Requests {
  import opened Codec

  /* ---- Messages that requests hold ---- */

  function X509Name(): (s: Schema)
    ensures ValidSchema(s)
  {
    [
      Field(1, "Country", KString), Field(2, "State", KString), Field(3, "Locality", KString),
      Field(4, "Organisation", KString), Field(5, "OrganisationalUnit", KString),
      Field(6, "SerialNumber", KString)
    ]
  }

  function X509Subject(): (s: Schema)
    ensures ValidSchema(s)
  {
    [
      Field(1, "CommonName", KString), Field(2, "Names", KMessages(X509Name())),
      Field(3, "SerialNumber", KString)
    ]
  }

  function KeySpec(): (s: Schema)
    ensures ValidSchema(s)
  {
    [
      Field(1, "Algo", KString), Field(2, "Size", KInt32)
    ]
  }

  function IssuerConfig(): (s: Schema)
    ensures ValidSchema(s)
  {
    [
      Field(1, "AiaURL", KString), Field(2, "OcspURL", KString), Field(3, "CrlURL", KString),
      Field(4, "CrlExpiry", KString), Field(5, "CrlRenewal", KString), Field(6, "OcspExpiry", KString),
      Field(7, "DelegatedOcspProfile", KString), Field(8, "AllowedProfiles", KStrings),
      Field(9, "OmitDisabledExtensions", KBool)
    ]
  }

  function X509Extension(): (s: Schema)
    ensures ValidSchema(s)
  {
    [
      Field(1, "ID", KString), Field(2, "Critical", KBool), Field(3, "Value", KString)
    ]
  }

  function CAConstraint(): (s: Schema)
    ensures ValidSchema(s)
  {
    [
      Field(1, "IsCA", KBool), Field(2, "MaxPathLen", KInt32)
    ]
  }

  function CSRAllowedFields(): (s: Schema)
    ensures ValidSchema(s)
  {
    [
      Field(1, "Subject", KBool), Field(2, "Dns", KBool), Field(3, "Ip", KBool), Field(4, "Email", KBool),
      Field(5, "Uri", KBool)
    ]
  }

  function CertificatePolicyQualifier(): (s: Schema)
    ensures ValidSchema(s)
  {
    [
      Field(1, "Type", KString), Field(2, "Value", KString)
    ]
  }

  function CertificatePolicy(): (s: Schema)
    ensures ValidSchema(s)
  {
    [
      Field(1, "ID", KString), Field(2, "Qualifiers", KMessages(CertificatePolicyQualifier()))
    ]
  }

  function CertProfileFields(): Schema {
    [
      Field(1, "ID", KString), Field(2, "OrgID", KString), Field(3, "ProjectID", KString),
      Field(4, "Label", KString), Field(5, "IssuerLabel", KString), Field(6, "Description", KString),
      Field(7, "Usages", KStrings), Field(8, "CAConstraint", KMessage(CAConstraint())),
      Field(9, "OcspNoCheck", KBool), Field(10, "Expiry", KString), Field(11, "Backdate", KString),
      Field(12, "Extensions", KMessages(X509Extension())), Field(13, "AllowedExtensions", KStrings),
      Field(14, "AllowedNames", KString), Field(15, "AllowedDns", KString), Field(16, "AllowedEmail", KString),
      Field(17, "AllowedUri", KString), Field(18, "AllowedFields", KMessage(CSRAllowedFields())),
      Field(19, "Policies", KMessages(CertificatePolicy())), Field(20, "PoliciesCritical", KBool),
      Field(21, "AllowedRoles", KStrings), Field(22, "DeniedRoles", KStrings), Field(23, "Status", KInt32),
      Field(24, "CreatedAt", KString), Field(25, "UpdatedAt", KString)
    ]
  }

  lemma CertProfileValid()
    ensures ValidSchema(CertProfileFields())
  {
    hide CertProfileFields;
    CertProfileNumbers();
    CertProfileKinds();
  }

  lemma CertProfileNumbers()
    ensures Numbered(CertProfileFields())
  {
    CertProfileCounts();
    hide CertProfileFields;
  }

  lemma CertProfileCounts()
    ensures var s := CertProfileFields(); |s| == 25 && forall i | 0 <= i < 25 :: s[i].num == i + 1
  {
    hide ValidSchema, X509Extension, CAConstraint, CSRAllowedFields, CertificatePolicy;
  }

  lemma CertProfileKinds()
    ensures KindsValid(CertProfileFields())
  {
    hide ValidSchema, Numbered;
  }

  function CertProfile(): (s: Schema)
    ensures ValidSchema(s)
  {
    CertProfileValid();
    CertProfileFields()
  }

  function IssuerSerial(): (s: Schema)
    ensures ValidSchema(s)
  {
    [
      Field(1, "IKID", KString), Field(2, "SerialNumber", KString)
    ]
  }

  /* ---- The requests and their copies ---- */

  /** The field that names the org in a privpb.Backend request. */
  const ORG_ID: Field := Field(1, "OrgID", KString)

  /** The backend request is the public one with the org in field 1, which the public one reserves. */
  predicate IsCopy(backend: Schema, public: Schema) {
    backend == [ORG_ID] + public && ValidSchema(backend)
  }

  function PublicRegisterIssuer(): (s: Schema)
    ensures ValidSchema(s)
  {
    [
      Field(2, "ProjectID", KString), Field(3, "Label", KString), Field(4, "Type", KInt32),
      Field(5, "Subject", KMessage(X509Subject())), Field(6, "KeySpec", KMessage(KeySpec())),
      Field(7, "KeyProvider", KString), Field(8, "ParentID", KString), Field(9, "Profile", KString),
      Field(10, "Config", KMessage(IssuerConfig())), Field(11, "SAN", KStrings),
      Field(12, "Extensions", KMessages(X509Extension()))
    ]
  }

  function BackendRegisterIssuer(): (s: Schema)
    ensures IsCopy(s, PublicRegisterIssuer())
  {
    [
      Field(1, "OrgID", KString), Field(2, "ProjectID", KString), Field(3, "Label", KString),
      Field(4, "Type", KInt32), Field(5, "Subject", KMessage(X509Subject())),
      Field(6, "KeySpec", KMessage(KeySpec())), Field(7, "KeyProvider", KString),
      Field(8, "ParentID", KString), Field(9, "Profile", KString),
      Field(10, "Config", KMessage(IssuerConfig())), Field(11, "SAN", KStrings),
      Field(12, "Extensions", KMessages(X509Extension()))
    ]
  }

  function PublicImportIssuer(): (s: Schema)
    ensures ValidSchema(s)
  {
    [
      Field(2, "ProjectID", KString), Field(3, "Label", KString), Field(4, "Type", KInt32),
      Field(5, "Certificate", KString), Field(6, "Intermediates", KString), Field(7, "Root", KString),
      Field(8, "KeyURI", KString), Field(9, "KeyPem", KString), Field(10, "Config", KMessage(IssuerConfig()))
    ]
  }

  function BackendImportIssuer(): (s: Schema)
    ensures IsCopy(s, PublicImportIssuer())
  {
    [
      Field(1, "OrgID", KString), Field(2, "ProjectID", KString), Field(3, "Label", KString),
      Field(4, "Type", KInt32), Field(5, "Certificate", KString), Field(6, "Intermediates", KString),
      Field(7, "Root", KString), Field(8, "KeyURI", KString), Field(9, "KeyPem", KString),
      Field(10, "Config", KMessage(IssuerConfig()))
    ]
  }

  function PublicActivateIssuer(): (s: Schema)
    ensures ValidSchema(s)
  {
    [
      Field(2, "ID", KString), Field(3, "Certificate", KString), Field(4, "Intermediates", KString),
      Field(5, "Root", KString), Field(6, "ProjectID", KString)
    ]
  }

  function BackendActivateIssuer(): (s: Schema)
    ensures IsCopy(s, PublicActivateIssuer())
  {
    [
      Field(1, "OrgID", KString), Field(2, "ID", KString), Field(3, "Certificate", KString),
      Field(4, "Intermediates", KString), Field(5, "Root", KString), Field(6, "ProjectID", KString)
    ]
  }

  function PublicGetIssuer(): (s: Schema)
    ensures ValidSchema(s)
  {
    [
      Field(2, "ProjectID", KString), Field(3, "ID", KString), Field(4, "Label", KString),
      Field(5, "IKID", KString)
    ]
  }

  function BackendGetIssuer(): (s: Schema)
    ensures IsCopy(s, PublicGetIssuer())
  {
    [
      Field(1, "OrgID", KString), Field(2, "ProjectID", KString), Field(3, "ID", KString),
      Field(4, "Label", KString), Field(5, "IKID", KString)
    ]
  }

  function PublicListIssuers(): (s: Schema)
    ensures ValidSchema(s)
  {
    [
      Field(2, "ProjectID", KString), Field(3, "Status", KInt32), Field(4, "Type", KInt32),
      Field(5, "Limit", KUint32), Field(6, "Offset", KUint32), Field(7, "Cursor", KString),
      Field(8, "IDs", KStrings), Field(9, "IKIDs", KStrings)
    ]
  }

  function BackendListIssuers(): (s: Schema)
    ensures IsCopy(s, PublicListIssuers())
  {
    [
      Field(1, "OrgID", KString), Field(2, "ProjectID", KString), Field(3, "Status", KInt32),
      Field(4, "Type", KInt32), Field(5, "Limit", KUint32), Field(6, "Offset", KUint32),
      Field(7, "Cursor", KString), Field(8, "IDs", KStrings), Field(9, "IKIDs", KStrings)
    ]
  }

  function PublicUpdateIssuer(): (s: Schema)
    ensures ValidSchema(s)
  {
    [
      Field(2, "ID", KString), Field(3, "Config", KMessage(IssuerConfig())), Field(4, "Status", KInt32),
      Field(5, "ProjectID", KString)
    ]
  }

  function BackendUpdateIssuer(): (s: Schema)
    ensures IsCopy(s, PublicUpdateIssuer())
  {
    [
      Field(1, "OrgID", KString), Field(2, "ID", KString), Field(3, "Config", KMessage(IssuerConfig())),
      Field(4, "Status", KInt32), Field(5, "ProjectID", KString)
    ]
  }

  function PublicRegisterRoot(): (s: Schema)
    ensures ValidSchema(s)
  {
    [
      Field(2, "Pem", KString), Field(3, "Trust", KInt32)
    ]
  }

  function BackendRegisterRoot(): (s: Schema)
    ensures IsCopy(s, PublicRegisterRoot())
  {
    [
      Field(1, "OrgID", KString), Field(2, "Pem", KString), Field(3, "Trust", KInt32)
    ]
  }

  function PublicListRoots(): (s: Schema)
    ensures ValidSchema(s)
  {
    [
      Field(2, "Limit", KUint32), Field(3, "Offset", KUint32), Field(4, "Cursor", KString)
    ]
  }

  function BackendListRoots(): (s: Schema)
    ensures IsCopy(s, PublicListRoots())
  {
    [
      Field(1, "OrgID", KString), Field(2, "Limit", KUint32), Field(3, "Offset", KUint32),
      Field(4, "Cursor", KString)
    ]
  }

  function PublicRegisterProfile(): (s: Schema)
    ensures ValidSchema(s)
  {
    [
      Field(2, "ProjectID", KString), Field(3, "Profile", KMessage(CertProfile()))
    ]
  }

  function BackendRegisterProfile(): (s: Schema)
    ensures IsCopy(s, PublicRegisterProfile())
  {
    [
      Field(1, "OrgID", KString), Field(2, "ProjectID", KString), Field(3, "Profile", KMessage(CertProfile()))
    ]
  }

  function PublicGetProfile(): (s: Schema)
    ensures ValidSchema(s)
  {
    [
      Field(2, "ProjectID", KString), Field(3, "ID", KString), Field(4, "Label", KString)
    ]
  }

  function BackendGetProfile(): (s: Schema)
    ensures IsCopy(s, PublicGetProfile())
  {
    [
      Field(1, "OrgID", KString), Field(2, "ProjectID", KString), Field(3, "ID", KString),
      Field(4, "Label", KString)
    ]
  }

  function PublicListProfiles(): (s: Schema)
    ensures ValidSchema(s)
  {
    [
      Field(2, "ProjectID", KString), Field(3, "IssuerLabel", KString), Field(4, "Limit", KUint32),
      Field(5, "Offset", KUint32), Field(6, "Cursor", KString), Field(7, "IDs", KStrings),
      Field(8, "Labels", KStrings)
    ]
  }

  function BackendListProfiles(): (s: Schema)
    ensures IsCopy(s, PublicListProfiles())
  {
    [
      Field(1, "OrgID", KString), Field(2, "ProjectID", KString), Field(3, "IssuerLabel", KString),
      Field(4, "Limit", KUint32), Field(5, "Offset", KUint32), Field(6, "Cursor", KString),
      Field(7, "IDs", KStrings), Field(8, "Labels", KStrings)
    ]
  }

  function PublicDeleteProfile(): (s: Schema)
    ensures ValidSchema(s)
  {
    [
      Field(2, "ID", KString), Field(3, "ProjectID", KString)
    ]
  }

  function BackendDeleteProfile(): (s: Schema)
    ensures IsCopy(s, PublicDeleteProfile())
  {
    [
      Field(1, "OrgID", KString), Field(2, "ID", KString), Field(3, "ProjectID", KString)
    ]
  }

  function PublicSignCertificate(): (s: Schema)
    ensures ValidSchema(s)
  {
    [
      Field(2, "ProjectID", KString), Field(3, "Profile", KString), Field(4, "IssuerLabel", KString),
      Field(5, "RequestFormat", KInt32), Field(6, "Request", KBytes), Field(7, "SAN", KStrings),
      Field(8, "Subject", KMessage(X509Subject())), Field(9, "NotBefore", KString),
      Field(10, "NotAfter", KString), Field(11, "Extensions", KMessages(X509Extension())),
      Field(12, "Label", KString), Field(13, "Metadata", KStringMap)
    ]
  }

  function BackendSignCertificate(): (s: Schema)
    ensures IsCopy(s, PublicSignCertificate())
  {
    [
      Field(1, "OrgID", KString), Field(2, "ProjectID", KString), Field(3, "Profile", KString),
      Field(4, "IssuerLabel", KString), Field(5, "RequestFormat", KInt32), Field(6, "Request", KBytes),
      Field(7, "SAN", KStrings), Field(8, "Subject", KMessage(X509Subject())), Field(9, "NotBefore", KString),
      Field(10, "NotAfter", KString), Field(11, "Extensions", KMessages(X509Extension())),
      Field(12, "Label", KString), Field(13, "Metadata", KStringMap)
    ]
  }

  function PublicUpdateCertificateLabel(): (s: Schema)
    ensures ValidSchema(s)
  {
    [
      Field(2, "ID", KString), Field(3, "Label", KString), Field(4, "Metadata", KStringMap),
      Field(5, "ProjectID", KString)
    ]
  }

  function BackendUpdateCertificateLabel(): (s: Schema)
    ensures IsCopy(s, PublicUpdateCertificateLabel())
  {
    [
      Field(1, "OrgID", KString), Field(2, "ID", KString), Field(3, "Label", KString),
      Field(4, "Metadata", KStringMap), Field(5, "ProjectID", KString)
    ]
  }

  function PublicGetCertificate(): (s: Schema)
    ensures ValidSchema(s)
  {
    [
      Field(2, "ID", KString), Field(3, "SKID", KString), Field(4, "Sha256", KString),
      Field(5, "IssuerSerial", KMessage(IssuerSerial()))
    ]
  }

  function BackendGetCertificate(): (s: Schema)
    ensures IsCopy(s, PublicGetCertificate())
  {
    [
      Field(1, "OrgID", KString), Field(2, "ID", KString), Field(3, "SKID", KString),
      Field(4, "Sha256", KString), Field(5, "IssuerSerial", KMessage(IssuerSerial()))
    ]
  }

  function PublicListCertificates(): (s: Schema)
    ensures ValidSchema(s)
  {
    [
      Field(2, "ProjectID", KString), Field(3, "IKID", KString), Field(4, "Profile", KString),
      Field(5, "Status", KInt32), Field(6, "ExpiringBefore", KString), Field(7, "Limit", KUint32),
      Field(8, "Offset", KUint32), Field(9, "Cursor", KString)
    ]
  }

  function BackendListCertificates(): (s: Schema)
    ensures IsCopy(s, PublicListCertificates())
  {
    [
      Field(1, "OrgID", KString), Field(2, "ProjectID", KString), Field(3, "IKID", KString),
      Field(4, "Profile", KString), Field(5, "Status", KInt32), Field(6, "ExpiringBefore", KString),
      Field(7, "Limit", KUint32), Field(8, "Offset", KUint32), Field(9, "Cursor", KString)
    ]
  }

  function PublicListRevokedCertificates(): (s: Schema)
    ensures ValidSchema(s)
  {
    [
      Field(2, "ProjectID", KString), Field(3, "IKID", KString), Field(4, "Limit", KUint32),
      Field(5, "Offset", KUint32), Field(6, "Cursor", KString)
    ]
  }

  function BackendListRevokedCertificates(): (s: Schema)
    ensures IsCopy(s, PublicListRevokedCertificates())
  {
    [
      Field(1, "OrgID", KString), Field(2, "ProjectID", KString), Field(3, "IKID", KString),
      Field(4, "Limit", KUint32), Field(5, "Offset", KUint32), Field(6, "Cursor", KString)
    ]
  }

  function PublicRevokeCertificate(): (s: Schema)
    ensures ValidSchema(s)
  {
    [
      Field(2, "ID", KString), Field(3, "SKID", KString), Field(4, "IssuerSerial", KMessage(IssuerSerial())),
      Field(5, "Reason", KInt32), Field(6, "ReasonText", KString), Field(7, "ProjectID", KString)
    ]
  }

  function BackendRevokeCertificate(): (s: Schema)
    ensures IsCopy(s, PublicRevokeCertificate())
  {
    [
      Field(1, "OrgID", KString), Field(2, "ID", KString), Field(3, "SKID", KString),
      Field(4, "IssuerSerial", KMessage(IssuerSerial())), Field(5, "Reason", KInt32),
      Field(6, "ReasonText", KString), Field(7, "ProjectID", KString)
    ]
  }

  function PublicGetCrl(): (s: Schema)
    ensures ValidSchema(s)
  {
    [
      Field(2, "IKID", KString)
    ]
  }

  function BackendGetCrl(): (s: Schema)
    ensures IsCopy(s, PublicGetCrl())
  {
    [
      Field(1, "OrgID", KString), Field(2, "IKID", KString)
    ]
  }

  function PublicPublishCrls(): (s: Schema)
    ensures ValidSchema(s)
  {
    [
      Field(2, "ProjectID", KString), Field(3, "IKID", KString), Field(4, "Force", KBool)
    ]
  }

  function BackendPublishCrls(): (s: Schema)
    ensures IsCopy(s, PublicPublishCrls())
  {
    [
      Field(1, "OrgID", KString), Field(2, "ProjectID", KString), Field(3, "IKID", KString),
      Field(4, "Force", KBool)
    ]
  }

  function PublicGetSummary(): (s: Schema)
    ensures ValidSchema(s)
  {
    [
      Field(2, "ProjectID", KString)
    ]
  }

  function BackendGetSummary(): (s: Schema)
    ensures IsCopy(s, PublicGetSummary())
  {
    [
      Field(1, "OrgID", KString), Field(2, "ProjectID", KString)
    ]
  }

  datatype Request =
    | RegisterIssuer
    | ImportIssuer
    | ActivateIssuer
    | GetIssuer
    | ListIssuers
    | UpdateIssuer
    | RegisterRoot
    | ListRoots
    | RegisterProfile
    | GetProfile
    | ListProfiles
    | DeleteProfile
    | SignCertificate
    | UpdateCertificateLabel
    | GetCertificate
    | ListCertificates
    | ListRevokedCertificates
    | RevokeCertificate
    | GetCrl
    | PublishCrls
    | GetSummary

  /** The schema of the request of pb.CA. */
  function Public(r: Request): Schema {
    match r
    case RegisterIssuer => PublicRegisterIssuer()
    case ImportIssuer => PublicImportIssuer()
    case ActivateIssuer => PublicActivateIssuer()
    case GetIssuer => PublicGetIssuer()
    case ListIssuers => PublicListIssuers()
    case UpdateIssuer => PublicUpdateIssuer()
    case RegisterRoot => PublicRegisterRoot()
    case ListRoots => PublicListRoots()
    case RegisterProfile => PublicRegisterProfile()
    case GetProfile => PublicGetProfile()
    case ListProfiles => PublicListProfiles()
    case DeleteProfile => PublicDeleteProfile()
    case SignCertificate => PublicSignCertificate()
    case UpdateCertificateLabel => PublicUpdateCertificateLabel()
    case GetCertificate => PublicGetCertificate()
    case ListCertificates => PublicListCertificates()
    case ListRevokedCertificates => PublicListRevokedCertificates()
    case RevokeCertificate => PublicRevokeCertificate()
    case GetCrl => PublicGetCrl()
    case PublishCrls => PublicPublishCrls()
    case GetSummary => PublicGetSummary()
  }

  /** The schema of the request of privpb.Backend. */
  function Backend(r: Request): Schema {
    match r
    case RegisterIssuer => BackendRegisterIssuer()
    case ImportIssuer => BackendImportIssuer()
    case ActivateIssuer => BackendActivateIssuer()
    case GetIssuer => BackendGetIssuer()
    case ListIssuers => BackendListIssuers()
    case UpdateIssuer => BackendUpdateIssuer()
    case RegisterRoot => BackendRegisterRoot()
    case ListRoots => BackendListRoots()
    case RegisterProfile => BackendRegisterProfile()
    case GetProfile => BackendGetProfile()
    case ListProfiles => BackendListProfiles()
    case DeleteProfile => BackendDeleteProfile()
    case SignCertificate => BackendSignCertificate()
    case UpdateCertificateLabel => BackendUpdateCertificateLabel()
    case GetCertificate => BackendGetCertificate()
    case ListCertificates => BackendListCertificates()
    case ListRevokedCertificates => BackendListRevokedCertificates()
    case RevokeCertificate => BackendRevokeCertificate()
    case GetCrl => BackendGetCrl()
    case PublishCrls => BackendPublishCrls()
    case GetSummary => BackendGetSummary()
  }

  /** Every privpb.Backend request is a copy of the pb.CA request of the same name. */
  lemma Copies(r: Request)
    ensures IsCopy(Backend(r), Public(r))
  {
    hide IsCopy, ValidSchema, PublicRegisterIssuer, BackendRegisterIssuer, PublicImportIssuer,
         BackendImportIssuer, PublicActivateIssuer, BackendActivateIssuer, PublicGetIssuer, BackendGetIssuer,
         PublicListIssuers, BackendListIssuers, PublicUpdateIssuer, BackendUpdateIssuer, PublicRegisterRoot,
         BackendRegisterRoot, PublicListRoots, BackendListRoots, PublicRegisterProfile,
         BackendRegisterProfile, PublicGetProfile, BackendGetProfile, PublicListProfiles, BackendListProfiles,
         PublicDeleteProfile, BackendDeleteProfile, PublicSignCertificate, BackendSignCertificate,
         PublicUpdateCertificateLabel, BackendUpdateCertificateLabel, PublicGetCertificate,
         BackendGetCertificate, PublicListCertificates, BackendListCertificates,
         PublicListRevokedCertificates, BackendListRevokedCertificates, PublicRevokeCertificate,
         BackendRevokeCertificate, PublicGetCrl, BackendGetCrl, PublicPublishCrls, BackendPublishCrls,
         PublicGetSummary, BackendGetSummary;
  }
}
