# TrustyCA in Dafny

A model of the parts of TrustyCA that carry state or a format, and proofs about them:

- **Forwarding a request to the backend** (`Wire`, `Utf8`, `Codec`, `CodecRoundTrip`, `CodecOrder`,
  `CodecSound`, `Requests`, `Forward`; `WireFormat` and `CodecFormat` say what the bytes are). The CA
  service encodes a public request and decodes the bytes as its private copy, which has the org in
  field 1. The codec follows the Protocol Buffers "Encoding" reference; the schemas are the field
  tags of the generated structs. A message is the map of its fields that do not have their default
  value, and its unknown fields as records, so a public request and its copy can be compared field
  by field. `Message<Ranged>` holds its maps in the order a Go range yields them,
  `Message<Settled>` as values.
- **Publishing CRLs** (`CrlPublisher`, `CrlDates`). Any number of publishers of one issuer as a
  state machine: each read, page and transaction is a step, interleaved with revocations, the deletion of expired
  certificates, status changes, failures and the clock.
- **Linking the message descriptions** (`Linker`), on a heap of field objects that lists share.
- **Key/value lists** (`KeyValues`), **the client factory** (`ClientFactory`), **the method table**
  (`MethodTable`) and **the clients of the CLI** (`CliStorage`).

Some results are about what the code does not do. A caller that writes an org that is not UTF-8 in
the reserved field 1 gets an error, where any other value is dropped (`Forward.BadOrgRefused`;
`Forward.CounterpartExact` says exactly when). And a CRL stored at the second attempt of a publisher
can be dated before the CRL that overtook it, since the time is taken once
(`CrlDates.Backdated`; `CrlDates.DatesFollowNumbers` says exactly when). The clients of the CLI can
have different folders (`CliStorage.FoldersAgree` says exactly when), also for an https host that the
configuration does not list, where a comment (api/cli/cli.go:269-270) takes them to be the same. The
comment of `forward` does not mention the first. The model follows the code.

Clocks, I/O and code outside the repository are parameters: the time and the pages of
`CrlPublisher`, the `World` and `IO` of `CliStorage`, the `World` of `ClientFactory`,
the organisation of the caller in `Forward`.

The functions of `Requests` named `Public...` and after a message are the data of the table: their
contract is that the field numbers grow, and `Requests.Copies` is what is claimed of them.

## Model

| member | source | states |
|---|---|---|
| Forward.CounterpartExact | server/service/ca/forward.go:178-201 | For every request and org of the caller: the copy fails to encode exactly when a string of the request, at any depth, is not the encoding of characters or the encoding is no Go slice; it fails to decode exactly when an unknown field of the request is an org in field 1 that is no such encoding; otherwise, field by field, it has the fields of the request, the org of the caller in field 1 whatever the caller wrote there, and no unknown fields |
| Forward.NumberOfExact | server/service/ca/forward.go:194-197 | The field of the org is found by its name: the first of that name, and none only if there is none |
| Forward.ForwardsAnyBytes | server/service/ca/forward.go:147-176 | The same from the bytes of the caller alone: every message they are decoded as can be ranged over, and in every order of its maps it fits the encoder and has that outcome |
| Forward.CopyExact | server/service/ca/forward.go:180-201 | The same for every pair of schemas of which one adds OrgID in field 1 |
| Forward.ReadAsBackend | privpb/backend_grpc.pb.go:62-64 | The encoding of a public request without unknown fields, decoded as the backend request, is that request with no org |
| Forward.CopySound | server/service/ca/forward.go:178-201 | The copy is a well-formed backend request, so it can be sent, when the org of the caller is UTF-8 |
| Forward.BackendRoundTrip | privpb/backend.pb.go:30-62 | Every backend request decoded as the public request keeps its org as an unknown field, in front of the others; encoded again in any map order and decoded as the backend request it is what it was |
| Forward.BadOrgRefused | server/service/ca/forward.go:147-154 | For every request type there is a message of the caller that cannot be forwarded: one with an org in field 1 that is not UTF-8 |
| Forward.WrittenOrg | server/service/ca/forward_test.go:300-312 | An org in field 1 is the org to the backend schema and an unknown field to the public one |
| Forward.OrgBytes | server/service/ca/forward_test.go:302-304 | An org shorter than 128 bytes is written in field 1 as the byte 10, its length and itself |
| Forward.CopyKnows | privpb/backend_grpc.pb.go:62-64 | The backend schema knows exactly the records the public one knows and the org, and never both |
| Requests.Copies | privpb/backend_grpc.pb.go:62-64 | Each of the 21 backend requests is the public request of the same name with OrgID in field 1: the same numbers, names and kinds, nested messages included |
| Requests.BackendRegisterIssuer | privpb/backend.pb.go:30-62 | The fields of the request, as tagged; they are those of the public request (api/pb/ca.pb.go:28-57) and OrgID |
| Requests.BackendImportIssuer | privpb/backend.pb.go:180-207 | The fields of the request, as tagged; they are those of the public request (api/pb/ca.pb.go:167-191) and OrgID |
| Requests.BackendActivateIssuer | privpb/backend.pb.go:312-331 | The fields of the request, as tagged; they are those of the public request (api/pb/ca.pb.go:288-304) and OrgID |
| Requests.BackendGetIssuer | privpb/backend.pb.go:407-422 | The fields of the request, as tagged; they are those of the public request (api/pb/ca.pb.go:372-384) and OrgID |
| Requests.BackendListIssuers | privpb/backend.pb.go:491-519 | The fields of the request, as tagged; they are those of the public request (api/pb/ca.pb.go:445-473) and OrgID |
| Requests.BackendUpdateIssuer | privpb/backend.pb.go:616-633 | The fields of the request, as tagged; they are those of the public request (api/pb/ca.pb.go:617-631) and OrgID |
| Requests.BackendRegisterRoot | privpb/backend.pb.go:702-713 | The fields of the request, as tagged; they are those of the public request (api/pb/ca.pb.go:692-700) and OrgID |
| Requests.BackendListRoots | privpb/backend.pb.go:768-781 | The fields of the request, as tagged; they are those of the public request (api/pb/ca.pb.go:747-757) and OrgID |
| Requests.BackendRegisterProfile | privpb/backend.pb.go:843-855 | The fields of the request, as tagged; they are those of the public request (api/pb/ca.pb.go:866-875) and OrgID |
| Requests.BackendGetProfile | privpb/backend.pb.go:910-923 | The fields of the request, as tagged; they are those of the public request (api/pb/ca.pb.go:922-932) and OrgID |
| Requests.BackendListProfiles | privpb/backend.pb.go:985-1008 | The fields of the request, as tagged; they are those of the public request (api/pb/ca.pb.go:986-1008) and OrgID |
| Requests.BackendDeleteProfile | privpb/backend.pb.go:1098-1111 | The fields of the request, as tagged; they are those of the public request (api/pb/ca.pb.go:1145-1155) and OrgID |
| Requests.BackendSignCertificate | privpb/backend.pb.go:1166-1202 | The fields of the request, as tagged; they are those of the public request (api/pb/ca.pb.go:1202-1235) and OrgID |
| Requests.BackendUpdateCertificateLabel | privpb/backend.pb.go:1327-1344 | The fields of the request, as tagged; they are those of the public request (api/pb/ca.pb.go:1352-1366) and OrgID |
| Requests.BackendGetCertificate | privpb/backend.pb.go:1414-1429 | The fields of the request, as tagged; they are those of the public request (api/pb/ca.pb.go:1428-1440) and OrgID |
| Requests.BackendListCertificates | privpb/backend.pb.go:1499-1526 | The fields of the request, as tagged; they are those of the public request (api/pb/ca.pb.go:1502-1526) and OrgID |
| Requests.BackendListRevokedCertificates | privpb/backend.pb.go:1624-1641 | The fields of the request, as tagged; they are those of the public request (api/pb/ca.pb.go:1616-1630) and OrgID |
| Requests.BackendRevokeCertificate | privpb/backend.pb.go:1717-1739 | The fields of the request, as tagged; they are those of the public request (api/pb/ca.pb.go:1698-1717) and OrgID |
| Requests.BackendGetCrl | privpb/backend.pb.go:1822-1831 | The fields of the request, as tagged; they are those of the public request (api/pb/ca.pb.go:1992-1998) and OrgID |
| Requests.BackendPublishCrls | privpb/backend.pb.go:1879-1896 | The fields of the request, as tagged; they are those of the public request (api/pb/ca.pb.go:2038-2052) and OrgID |
| Requests.BackendGetSummary | privpb/backend.pb.go:1958-1968 | The fields of the request, as tagged; they are those of the public request (api/pb/ca.pb.go:2288-2296) and OrgID |
| CodecRoundTrip.RoundTrip | server/service/ca/forward.go:184-192 | Decoding the encoding of a message, if its strings are UTF-8 and the encoding is a Go slice, gives the message, nested and unknown fields included, whatever order its maps are ranged in |
| CodecRoundTrip.DecodeExtended | server/service/ca/forward.go:184-192 | Under a schema with more fields, every field of the encoder's schema has its value, and the unknown fields are decoded after them |
| CodecRoundTrip.NumberRoundTrip | api/pb/ca.pb.go:451-457 | A uint32, bool or enum is read back from its varint, whatever follows it: at most five bytes, one for a bool, ten for a negative value |
| CodecOrder.ReorderedRecords | api/pb/ca.pb.go:1202-1235 | Records of different fields may be written in any order: the same messages are refused, and what is decoded has the same fields and, field by field, the same unknown records |
| CodecOrder.RangeOrderDecodes | api/pb/ca.pb.go:1231-1233 | Two encodings of a message that range over its maps in different orders decode to the same message, under its schema and under every extension of it |
| CodecOrder.RangeOrder | api/pb/ca.pb.go:1231-1233 | The value of a map does not depend on the order its entries are yielded in |
| CodecOrder.FoldAcceptsEach | server/service/ca/forward.go:188-192 | A message is refused exactly when one of its records is, whatever is around it |
| CodecOrder.LastOneWins | server/service/ca/forward.go:188-192 | Of several records of a string, bytes or number field the last one counts |
| CodecOrder.SubmessagesMerge | server/service/ca/forward.go:188-192 | Two records of a message field are one record of both messages, one after the other |
| CodecSound.DecodeSound | server/service/ca/forward.go:188-192 | Whatever the bytes, a decoded message has only values of the kinds of its schema, no defaults, only UTF-8 strings, and only unknown records as unknown fields |
| CodecSound.FitsFromSound | server/service/ca/forward.go:184-187 | Every such message can be encoded, in any order of its maps |
| CodecSound.RangeSettles | server/service/ca/forward.go:184-187 | Every decoded message is the value of one that ranges over its maps, at every depth |
| Wire.ParseEmit | server/service/ca/forward.go:184-192 | The records of a message, groups included, are read back from its bytes |
| WireFormat.ReadVarintExact | server/service/ca/forward.go:188-192 | A varint is read exactly where its first byte without the top bit is, as the sum of its digits to the base 128 |
| WireFormat.DecodeVarintExact | server/service/ca/forward.go:188-192 | Of these exactly those of ten bytes and 64 bits at most are accepted |
| WireFormat.EncodeVarintExact | server/service/ca/forward.go:184-187 | The bytes of a number are its digits to the base 128, lowest first, with the top bit on all but the last, and no more than it needs |
| WireFormat.TagExact | server/service/ca/forward.go:188-192 | A tag is a varint of eight times the field number, from 1 to 536870911, and the wire type |
| WireFormat.ScalarExact | server/service/ca/forward.go:188-192 | The values of the wire types: a varint, eight bytes, four bytes, or a varint and as many bytes as it says |
| WireFormat.GroupExact | server/service/ca/forward.go:188-192 | A group, read with a stack of open numbers, is exactly a message and an end tag of its number: nested groups are records of that message |
| WireFormat.RecordExact | server/service/ca/forward.go:188-192 | A record is valid exactly if its bytes are one value of its wire type |
| WireFormat.PayloadExact | server/service/ca/forward.go:188-192 | The payload of a record is what follows the varint of its length |
| Utf8.Utf8Exact | server/service/ca/forward.go:184-192 | A string is accepted exactly if it is the encoding of a sequence of Unicode scalar values, by one to four bytes |
| CodecFormat.CleanExact | server/service/ca/forward.go:184-187 | The encoder takes exactly the messages whose strings, at any depth, are such encodings |
| CodecFormat.NarrowExact | api/pb/ca.pb.go:451-457 | Of a varint a uint32 or enum keeps the low 32 bits, the enum as two's complement, and a bool whether any bit is set |
| CodecFormat.FieldBytes | api/pb/ca.pb.go:451-457 | The bytes of a field below 16: a tag of one byte, and a varint, sign-extended if negative, or a length and that many bytes |
| CodecFormat.EntryBytesExact | api/pb/ca.pb.go:1231-1233 | The bytes of a map entry: the key in field 1 and the value in field 2 |
| CodecFormat.EntryParts | api/pb/ca.pb.go:1231-1233 | A key or value that an entry does not write is the empty string, and either may come first |
| Wire.ParseAppend | server/service/ca/forward.go:188-192 | Two messages one after the other are read as the records of the first and then those of the second, or refused when the second is |
| CrlPublisher.NumbersConsecutive | internal/db/pgsql/crl.go:22-117 | In every run of any publishers the stored CRLs have consecutive numbers, the issuer has the last one, and its current CRL is the last one stored |
| CrlPublisher.RevocationStays | internal/ca/crl.go:280-343 | A revocation on a stored CRL is on every CRL stored later while the certificate is valid, whoever publishes it |
| CrlPublisher.CrlComplete | internal/ca/crl.go:366-443 | A stored CRL lists every revocation committed before its publisher read the issuer row and valid when it is stored, read a page at a time while others are committed and deleted; none expired at its time, none twice; it is valid for some time and not longer than the issuer |
| CrlPublisher.OnlyRevoked | internal/ca/crl.go:409-443 | A stored CRL lists only certificates revoked before the run or by a step of it |
| CrlPublisher.RefusedIfBeaten | internal/ca/crl.go:318-322 | A store is refused exactly when another CRL was stored after the publisher read the row; a publisher that gives up was overtaken twice |
| CrlPublisher.StoredIfDue | internal/ca/crl.go:280-343 | A CRL is stored, at either attempt, only by a publisher that was forced, or found that the next update of the CRL before it is not after the time it took and the renewal, or found none; it ends with its expiry or with the issuer, whichever is first |
| CrlPublisher.RowLook | internal/ca/crl.go:261-343 | A publisher goes on from the row it read exactly if the status of the issuer publishes, at either attempt |
| CrlPublisher.FirstLook | internal/ca/crl.go:280-295 | The issuer has ended, or an unforced publisher keeps a CRL whose next update is after the renewal, or it goes on; exactly when each, and nothing is stored |
| CrlPublisher.SecondLook | internal/ca/crl.go:327-342 | The same at the second attempt, with the CRL that is current then and the time of the first look |
| CrlPublisher.SignedCrl | internal/ca/crl.go:373-407 | The number, the dates and the entries of a CRL that is signed, and when none is |
| CrlPublisher.StoreOutcome | internal/ca/crl.go:304-322 | In every run a store is published exactly if no other CRL was stored since the publisher read the row; then its CRL is the current one; otherwise nothing changes, and the publisher tries again after the first attempt and gives up after the second |
| CrlPublisher.ExpiredOnlyIf | internal/ca/crl.go:280-390 | In every run, a publisher that ends because of the issuer took a time at the end of the issuer or later, or its CRLs have no validity |
| CrlPublisher.KeptNotDue | internal/ca/crl.go:289-342 | A publisher that stores nothing because none is needed was not forced, and returns a stored CRL that is not due at the time it took and not older than the issuer row it read |
| CrlDates.DatesFollowNumbers | internal/ca/crl.go:280-343 | From every starting state whose revocations have distinct ids, as rows with a primary key do, the dates follow the numbers in every run exactly when there is one publisher at most, or no second time to take before the issuer ends; the same for runs of forced publishers only and of unforced ones only |
| CrlDates.DatedInOrder | internal/ca/crl.go:280-343 | In a run, a CRL is dated before one with a smaller number only if it was stored at the second attempt, the other after its publisher started, and the publisher was forced, or found the CRL before its own due, or found none |
| CrlDates.UnforcedBackdated | internal/ca/crl.go:338-342 | Without force, and with a renewal not longer than the expiry, a CRL dated before the one it follows follows a deleted CRL or one cut to the end of the issuer |
| CrlDates.Backdated | internal/ca/crl.go:280-343 | With two publishers and two times before the issuer ends, forced or not, one stores a greater number with an earlier date, since the time is taken once |
| CrlPublisher.InvNext | internal/ca/crl.go:280-343 | Every step of a publisher, of the database and of the clock keeps the invariant all of these follow from |
| CrlPublisher.PageGood | internal/ca/crl.go:409-443 | A page read after the database changed continues the list: newest first, nothing twice, and nothing that was there from the start is passed over |
| Linker.LinkTable | privpb/messages.pb.go:3890-3903 | In every order of the table and with fields shared between descriptions, linking gives exactly the fields of the descriptions that have a nil list, a struct type and a known name the list of that name; it changes no other object and no description |
| Linker.LinkFields | privpb/messages.pb.go:3894-3900 | The same for the fields of one description |
| Linker.LinkedExact | privpb/messages.pb.go:3895-3898 | A field is given the list of the description it names exactly if it has no list, names a description of the table, and its type, without a leading [] if it has one, is struct or object; no other changes |
| Linker.MembersExact | privpb/messages.pb.go:3893-3894 | The fields that are visited are those of all lists of the table |
| Linker.Descriptions.GetMessageDescriptions | privpb/messages.pb.go:3890-3904 | Every call returns the table, linked; only the first changes it |
| Linker.LinkIdempotent | privpb/messages.pb.go:3892-3903 | Linking a linked table changes nothing |
| Linker.VisitsInAnyOrder | privpb/messages.pb.go:3893-3900 | Any sequence of visits links exactly the fields it visits, whether or not the lists they are given are linked yet |
| Linker.LinkedRanked | privpb/messages.pb.go:3890-3904 | An acyclic table can be followed through the shared lists after linking |
| Linker.UnfoldIsExpand | privpb/messages.pb.go:3890-3904 | Unfolding a field through the shared lists gives the recursive expansion of the table by name, at every depth |
| Linker.FollowedIffAcyclic | privpb/messages.pb.go:3890-3904 | The linked lists can be followed to the end exactly when the struct references have no cycle |
| Linker.NoStructLeft | privpb/messages.pb.go:3893-3900 | With fields that come with lists of their own, no known struct is left without its list exactly when none outside the descriptions lacks one |
| KeyValues.FlatMap | api/pb/pb.go:69-88 | The list is strictly increasing by key and has exactly the entries of the map with a value |
| KeyValues.FlatKVSet | api/pb/pb.go:90-109 | The same for sets of values |
| KeyValues.Flatten | api/pb/pb.go:76-87 | The same for values of any type, a range in any order and a sort that need not be stable |
| KeyValues.FlatUnique | api/pb/pb.go:82-85 | There is one such list, so neither the range nor the sort can show |
| KeyValues.LessBytewise | api/pb/pb.go:83-85 | Keys are compared byte by byte |
| KeyValues.FindKVPair | api/pb/pb.go:47-54 | The value of the first pair with the key, or the empty string |
| KeyValues.MapFromKVPair | api/pb/pb.go:56-67 | The map has every non-empty key that has a non-empty value, with the last one |
| KeyValues.LastExact | api/pb/pb.go:56-67 | That value is the one of the last pair with the key and a value |
| KeyValues.FlatLookups | api/pb/pb.go:47-88 | On the canonical list of a map both lookups give the value of the map or the empty string, the empty key included |
| KeyValues.MapOfFlat | api/pb/pb.go:56-88 | The map of the canonical list of a map is that map without empty values and without the empty key |
| KeyValues.NormalIdempotent | api/pb/pb.go:56-88 | The canonical list of the map of a list is its own normal form |
| KeyValues.NormalSame | api/pb/pb.go:56-88 | Two lists have one normal form exactly when every non-empty key has the same last non-empty value in both |
| KeyValues.LastIsFirstBackwards | api/pb/pb.go:47-67 | The map takes what the search finds in the pairs with a value, last first |
| KeyValues.DistinctLookups | api/pb/pb.go:47-67 | On a list without a key twice the lookups agree |
| ClientFactory.NewFactory | api/client/factory.go:133-155 | A factory is returned exactly when all names are non-empty and distinct; then the index is a bijection and the options are applied to the defaults; otherwise the error is for the first position that offends |
| ClientFactory.Factory.NewClient | api/client/factory.go:158-211 | The client or the failure that the configuration, the options of the factory and of the call, the TLS files and the dialing give; the factory is not changed |
| ClientFactory.ClientFor | api/client/factory.go:166-210 | Exactly when each failure happens and when a client is created, and all of its plan: endpoint, identity, agent and dial settings, and a TLS configuration from the option for any URL, else from the expanded files of the configuration for an https URL only |
| ClientFactory.AcceptedExact | api/client/factory.go:139-148 | No configuration is refused exactly if all have names and no two the same |
| ClientFactory.Layered | api/client/factory.go:150-164 | Options given to the factory and to the call, all to the factory, or all to the call, give one plan |
| ClientFactory.LastWins | api/client/factory.go:97-126 | Of the options of a setting the last wins, also one that sets nil |
| ClientFactory.Untouched | api/client/factory.go:107-126 | A setting without an option keeps its value |
| ClientFactory.Commute | api/client/factory.go:107-126 | Options of different settings commute, anywhere in a list |
| ClientFactory.RunCalls | api/client/factory.go:158-211 | Over any run of calls each result depends on its own call only |
| ClientFactory.OptionSet.Apply | api/client/factory.go:97-126 | The option changes its own setting in place, as the values the laws above are about |
| ClientFactory.OptionSet.ApplyAll | api/client/factory.go:150-152 | A list of options, in place and in order |
| MethodTable.GetMethodAliases | privpb/allocator.pb.go:57-66 | The aliases of some order of the table |
| MethodTable.AliasesInverse | privpb/allocator.pb.go:57-66 | With distinct commands the aliases invert the commands, in every order |
| MethodTable.OrderShows | privpb/allocator.pb.go:57-66 | The order does not show exactly when no two methods share a command |
| MethodTable.GetAdminMethodsInfo | privpb/privepb.go:5-18 | Exactly the methods with the Admin prefix |
| MethodTable.AdminAliases | privpb/privepb.go:7-18 | The Admin methods have the aliases of all methods exactly when no other method has a command |
| MethodTable.TableCommands | privpb/allocator.pb.go:69-178 | In the table the commands are distinct and all of Admin methods |
| MethodTable.AdminTable | privpb/privepb.go:5-18 | The Admin methods of the table are the four with a command |
| CliStorage.Cli.RPCClient | api/cli/cli.go:216-298 | The new state and the result of a call, whatever fails in it |
| CliStorage.RpcResult | api/cli/cli.go:216-298 | Exactly when the call fails and how; of a client the host, from the flag or else the environment, and the folder: from the flag, else the environment, else the default, and for an https host the configuration lists with its folder before the default, expanded |
| CliStorage.HttpResult | api/cli/cli.go:301-364 | The same for the HTTP client, whose folder is always expanded and written back, also by a call that fails later |
| CliStorage.CoalesceExact | api/cli/cli.go:179-190 | The first string that is not empty |
| CliStorage.Cli.HTTPClient | api/cli/cli.go:301-364 | The same; the folder is written back before the steps that can still fail |
| CliStorage.OneFolder | api/cli/cli.go:179-364 | For an https host the configuration lists, if the path of its folder expands, every client of every run of calls, successful or not, has the one folder of the host, with or without a Cfg |
| CliStorage.FoldersAgree | api/cli/cli.go:179-364 | For every host, the clients agree after every run of calls, whatever fails in them, exactly when there is never an HTTP client or the folder is steady: the gRPC client starts with the folder of the HTTP client, and a folder written back does not expand further where a client expands it |
| CliStorage.SecureHost | api/cli/cli.go:244-343 | For an https host, a gRPC client and a later HTTP client agree exactly when the configuration lists the host or the unexpanded folder is the expanded one; in the other order exactly when the configuration file of the folder written back does not list the host or the folder does not expand further, and for a path that does not expand exactly when the one then resolved does not either |
| CliStorage.PlainHost | api/cli/cli.go:228-240 | For a host that is not https, an HTTP client and a later gRPC client agree exactly when the path expands; in the other order exactly when the unexpanded flag, environment or default is the expanded folder of the HTTP client |
| CliStorage.ClientsKept | api/cli/cli.go:216-219 | A client, once created, is the result of every later call of its kind |

## Left out

- Deciding which issuers a publish covers, loading issuers and keys, and signing: the CRLs of one issuer are modelled, from the read of its row on.
- CrlDates.DatesFollowNumbers: the publishers share one clock that does not go back; clocks of different hosts may disagree.
- CrlPublisher.RevocationStays: an operator can delete a valid certificate with its revocation; only the deletion of expired certificates is a step.
- The recursion limit and the size limit of the Protocol Buffers runtime, other than that a result is a Go slice; packed numbers, which no request has.
- A field number above 536870911 inside a group, which the Go runtime skips and this model refuses.
- The locator of the backend, the nil request, and the mapping of the errors of a remote backend in `forward`.
- Linker.UnfoldIsExpand: for tables whose fields have no lists before linking, as generated; `Linker.NoStructLeft` is about the others.
- KeyValues.FlatMap: a nil list or map is not told from an empty one.
- IDPFromString and IDPFromSlice, method lookups by name, `CreateMessage` and `Validate`: lookups and wrappers.
- ClientFactory.Factory.NewClient: what the TLS files hold and how the connection is made; that they load and that dialing succeeds are parameters.
- CliStorage.Cli.RPCClient: the creation of a default configuration file, whose hosts are fixed for a run here; the trusted CA, the timeouts and the context of the client.
- Authorization, tenancy, issuer lifecycle, cursors of the other lists, OCSP and the web services.
