# AzureOSImage: a Dafny model of the Azure OS-image adapter

`AzureOSImage` is the dasein-cloud adapter that exposes Azure's OS-image catalog as machine images.
It fetches the catalog document (a flat list of `OSImage` elements) and maps each element to an image record (`toImage`).
It then keeps the records whose owner is one of the requested accounts (`populateImages`).
The public operations sit on top of that:

- listing (own account, or an owner set);
- looking an image up by id (`getMachineImage`) and asking whether it is public (`isImageSharedWithPublic`);
- searching by keyword, platform and architecture (`searchMachineImages`);
- capturing a stopped virtual machine as an image (`imageVirtualMachine`, both overloads);
- deleting an image (`remove`).

The model takes the source's form:

- Each loop is a Dafny `method` with its loop and invariants, proved equal to a specification function:
  - the loop over an entry's children in `toImage`;
  - the loop over the entries and the inner loop over the accounts in `populateImages`;
  - the early-return scan in `getMachineImage`;
  - the `continue` filter chain in `searchMachineImages`.
- The classification rules, the id split, the paths and the XML bodies are functions.
- The properties are lemmas about those functions.

The modules:

- `ImageTypes`: the record, the enumerations, the context, the DOM entry shape, errors and requests.
- `ImageMapping`: `toImage`.
- `AzureOSImage`: population, listing, lookup, search and remove.
- `ImageCapture`: both `imageVirtualMachine` overloads.
- `Text`: the Java string operations the adapter uses (`equalsIgnoreCase`, `trim`, `contains`, `split`).
- `Seqs`: order-preserving filters.
- `Base64` and `Utf8`: the capture label.
- `Wrappers` and `Bytes`: `Option`, `Result` and `byte`.

Inputs the adapter obtains from elsewhere are parameters:

- the catalog document, as `Option<seq<Entry>>`, where `None` is a null document;
- the provider context, as `Option<Context>`;
- the virtual machine `getVirtualMachine` returns;
- `AzureVM.HOSTED_SERVICES`;
- `Platform.guess`, `isWindows` and `isUnix`, as the function values of a `PlatformLib`.

Each request the adapter would send is returned as a `Request` value: verb, account, path and body.

In three places the code does something other than what a reader might expect, and the model follows the code:

- **Unrecognised category** (code, `toImage` lines 464-479): an unrecognised category value leaves the owner as it was, so an earlier recognised category is kept. One might expect such a value to fall back to the Microsoft sentinel.
- **Capture id split** (code, `imageVirtualMachine` lines 158-168): the id is cut with `String.split(":")`, which drops trailing empty pieces. So `"svc:role::"` names service `svc` and role `role`, and `"svc:"` serves as both. One might expect the id to need exactly one separator.
- **Platform refinement** (code, `toImage` lines 512-518): the free-text guess replaces an explicit UNIX only when the guess is not UNKNOWN, and always fills in a missing platform. An explicit WINDOWS is never refined. One might expect the guess to replace any UNIX or UNKNOWN platform.

## Model

| member | source | states |
|---|---|---|
| ImageMapping.ToImage | src/main/java/org/dasein/cloud/azure/compute/image/AzureOSImage.java:441-523 | the loop over the children (text nodes skipped, names compared ignoring case, later children overriding earlier ones) and the completion steps compute exactly the declarative record `MapEntry` |
| ImageMapping.MapEntry | src/main/java/org/dasein/cloud/azure/compute/image/AzureOSImage.java:441-523 | defines `toImage` as a function: the fields read from the children (the last child that gives a value wins), then completed with the defaults, the platform refinement and the software tag |
| ImageMapping.CategoryOwner | src/main/java/org/dasein/cloud/azure/compute/image/AzureOSImage.java:467-478 | defines the owner a category value gives, compared ignoring case: `user` gives the account, `microsoft` gives `--microsoft--`, `partner` gives `--public--`, `Canonical` gives `--Canonical--`, anything else gives nothing |
| ImageMapping.OsPlatform | src/main/java/org/dasein/cloud/azure/compute/image/AzureOSImage.java:493-498 | defines the platform an os value gives, compared ignoring case: `windows` gives WINDOWS, `linux` gives UNIX, anything else gives nothing |
| ImageMapping.RefinedPlatform | src/main/java/org/dasein/cloud/azure/compute/image/AzureOSImage.java:512-518 | defines the final platform: a missing platform becomes the guess from the descriptor; an explicit UNIX becomes the guess unless the guess is UNKNOWN; any other explicit platform stays |
| ImageMapping.LastValueSpec | src/main/java/org/dasein/cloud/azure/compute/image/AzureOSImage.java:456-500 | a field is unset exactly when no child gives it a value; otherwise it holds the value of a child after which no child gives one, i.e. the last child wins |
| ImageMapping.LastValueAt | src/main/java/org/dasein/cloud/azure/compute/image/AzureOSImage.java:456-500 | a field takes the value of whichever child gives one when no later child gives one |
| ImageMapping.NoNameNoRecord | src/main/java/org/dasein/cloud/azure/compute/image/AzureOSImage.java:461-503 | an entry yields no record exactly when it has no non-text `name` child with children |
| ImageMapping.IdIsLastName | src/main/java/org/dasein/cloud/azure/compute/image/AzureOSImage.java:461-462 | the id is the trimmed text of the last `name` child |
| ImageMapping.RecordConstants | src/main/java/org/dasein/cloud/azure/compute/image/AzureOSImage.java:449-521 | every record is ACTIVE, I64, STORAGE, untagged and in the context's region, whatever the payload says |
| ImageMapping.RecordDefaults | src/main/java/org/dasein/cloud/azure/compute/image/AzureOSImage.java:504-509 | without a label child the name is the id; without a description child the description is the name |
| ImageMapping.CategoryOwnerIsKnown | src/main/java/org/dasein/cloud/azure/compute/image/AzureOSImage.java:467-478 | a recognised category maps to the account, `--microsoft--`, `--public--` or `--Canonical--` |
| ImageMapping.OwnerIsKnown | src/main/java/org/dasein/cloud/azure/compute/image/AzureOSImage.java:451-479 | every record's owner is the caller's account or one of the three sentinels |
| ImageMapping.OwnerFromLastCategory | src/main/java/org/dasein/cloud/azure/compute/image/AzureOSImage.java:464-479 | the owner is what the last child with a recognised category value names; later unrecognised values do not change it |
| ImageMapping.OwnerDefaultsToMicrosoft | src/main/java/org/dasein/cloud/azure/compute/image/AzureOSImage.java:451 | with no recognised category child the owner stays `--microsoft--` |
| ImageMapping.CategoryIgnoresCase | src/main/java/org/dasein/cloud/azure/compute/image/AzureOSImage.java:467-476 | two category values equal up to case map to the same owner |
| ImageMapping.CategoryTable | src/main/java/org/dasein/cloud/azure/compute/image/AzureOSImage.java:467-478 | `USER` names the account, `Microsoft` the Microsoft sentinel, `PARTNER` the public one, `canonical` Canonical's, and `public` nothing |
| ImageMapping.ExplicitOs | src/main/java/org/dasein/cloud/azure/compute/image/AzureOSImage.java:490-518 | a last recognised os of `windows` (any case) gives WINDOWS; `linux` gives UNIX unless the free-text guess is not UNKNOWN, in which case it gives the guess |
| ImageMapping.PlatformGuessed | src/main/java/org/dasein/cloud/azure/compute/image/AzureOSImage.java:510-518 | with no recognised os child the platform is the guess over "id name description" |
| ImageMapping.SoftwareTag | src/main/java/org/dasein/cloud/azure/compute/image/AzureOSImage.java:510-519 | the software tag is "SQL Server" exactly when "id name description" contains it, and "" otherwise |
| ImageMapping.InertChildIgnored | src/main/java/org/dasein/cloud/azure/compute/image/AzureOSImage.java:456-500 | a child that sets no field can be removed from anywhere in an entry without changing the record |
| ImageMapping.TextNodesAreInert | src/main/java/org/dasein/cloud/azure/compute/image/AzureOSImage.java:458 | a text node sets no field |
| ImageMapping.LaterCategoryWins | src/main/java/org/dasein/cloud/azure/compute/image/AzureOSImage.java:464-479 | a recognised category child appended after all others decides the owner |
| AzureOSImage.MatchesAnyAccount | src/main/java/org/dasein/cloud/azure/compute/image/AzureOSImage.java:292-297 | the loop with `break` finds a match exactly when some account equals the owner ignoring case |
| AzureOSImage.KeepIfOwned | src/main/java/org/dasein/cloud/azure/compute/image/AzureOSImage.java:290-302 | what one mapped entry contributes: nothing for a rejected entry, else the record exactly when it passes the owner test |
| AzureOSImage.PopulateImages | src/main/java/org/dasein/cloud/azure/compute/image/AzureOSImage.java:276-304 | a null document fails with the AUTHENTICATION/403 "Illegal Access" error before anything is pushed; otherwise the result is the owned records of the catalog, filtered in document order |
| AzureOSImage.Owned | src/main/java/org/dasein/cloud/azure/compute/image/AzureOSImage.java:289-301 | defines the owner test: with an account list, some account equals the owner ignoring case; without one, the owner is exactly `--microsoft--` or `--public--` |
| AzureOSImage.ListMachineImages | src/main/java/org/dasein/cloud/azure/compute/image/AzureOSImage.java:216-238 | a missing context fails with the configuration error; otherwise the result is the population for the caller's account number alone |
| AzureOSImage.ListMachineImagesOwnedBy | src/main/java/org/dasein/cloud/azure/compute/image/AzureOSImage.java:241-264 | the population for the given account, or for the Microsoft and public sentinels when none is given; a missing context fails |
| AzureOSImage.FirstWithId | src/main/java/org/dasein/cloud/azure/compute/image/AzureOSImage.java:88-93 | nothing is found exactly when no image has the id; otherwise the image found has the id and no earlier one does |
| AzureOSImage.GetMachineImage | src/main/java/org/dasein/cloud/azure/compute/image/AzureOSImage.java:67-94 | the first image with exactly the id among the population for {Microsoft, caller, public}; None (null) if there is none; errors of the context and the document propagate |
| AzureOSImage.FindById | src/main/java/org/dasein/cloud/azure/compute/image/AzureOSImage.java:88-93 | the early-return scan finds what `FirstWithId` specifies |
| AzureOSImage.IsImageSharedWithPublic | src/main/java/org/dasein/cloud/azure/compute/image/AzureOSImage.java:204-208 | true exactly when the lookup finds an image whose owner is exactly `--microsoft--` or `--public--`; lookup errors propagate |
| AzureOSImage.SearchMachineImages | src/main/java/org/dasein/cloud/azure/compute/image/AzureOSImage.java:348-409 | a missing context or document fails; otherwise the visible records that pass the architecture, platform and keyword tests, in order |
| AzureOSImage.Refine | src/main/java/org/dasein/cloud/azure/compute/image/AzureOSImage.java:371-407 | the `continue` chain keeps exactly the filter of the populated list by the conjunction of the three tests |
| AzureOSImage.PlatformMatches | src/main/java/org/dasein/cloud/azure/compute/image/AzureOSImage.java:377-396 | defines the platform test: no platform or UNKNOWN requested accepts all; otherwise an UNKNOWN record fails; a Windows request needs a Windows record; a UNIX request needs a Unix record; any other request needs that exact platform |
| AzureOSImage.ArchitectureMatches | src/main/java/org/dasein/cloud/azure/compute/image/AzureOSImage.java:372-376 | defines the architecture test: no architecture requested accepts all; otherwise the record's architecture must equal it |
| AzureOSImage.KeywordMatches | src/main/java/org/dasein/cloud/azure/compute/image/AzureOSImage.java:397-405 | defines the keyword test: no keyword accepts all; otherwise the keyword occurs, case-sensitively, in the name, the description or the id |
| AzureOSImage.Remove | src/main/java/org/dasein/cloud/azure/compute/image/AzureOSImage.java:312-345 | a missing context fails with the configuration error; an image the lookup cannot find fails with "No such machine image: id" and issues no request; otherwise the DELETE of `/services/images/id` on the caller's account with the label body |
| AzureOSImage.RemoveXml | src/main/java/org/dasein/cloud/azure/compute/image/AzureOSImage.java:329-333 | defines the DELETE body: the `OSImage` envelope around the image's name as `Label` |
| AzureOSImage.ParseRemoveXmlIff | src/main/java/org/dasein/cloud/azure/compute/image/AzureOSImage.java:329-333 | the DELETE body reads back as a label exactly when it is the OSImage envelope around that label and the label holds no '<' |
| AzureOSImage.CatalogOrigin | src/main/java/org/dasein/cloud/azure/compute/image/AzureOSImage.java:284-290 | a record is in the catalog exactly when `toImage` makes it from one of the entries |
| AzureOSImage.NamelessEntryVanishes | src/main/java/org/dasein/cloud/azure/compute/image/AzureOSImage.java:286-303 | removing an entry without a name child, wherever it sits, leaves the catalog unchanged, so it never reaches a list, get or search |
| AzureOSImage.CatalogRecords | src/main/java/org/dasein/cloud/azure/compute/image/AzureOSImage.java:441-523 | every catalog record is ACTIVE, I64, STORAGE, in the context's region, and owned by the account or a sentinel |
| AzureOSImage.PopulatedMembers | src/main/java/org/dasein/cloud/azure/compute/image/AzureOSImage.java:290-302 | a record is pushed exactly when it is in the catalog and it passes the owner test `Owned` |
| AzureOSImage.PopulatedInOrder | src/main/java/org/dasein/cloud/azure/compute/image/AzureOSImage.java:286-303 | the pushed list is a sublist of the catalog in document order, and an owned record occurs as often as in the catalog (once per entry), an unowned one never |
| AzureOSImage.OwnerConstantsDiffer | src/main/java/org/dasein/cloud/azure/compute/image/AzureOSImage.java:467-477 | the three sentinels differ from one another even ignoring case |
| AzureOSImage.VisibleRecords | src/main/java/org/dasein/cloud/azure/compute/image/AzureOSImage.java:80 | get and search see a catalog record exactly when its owner is not `--Canonical--` or the account number equals `--Canonical--` ignoring case |
| AzureOSImage.PublicLibrary | src/main/java/org/dasein/cloud/azure/compute/image/AzureOSImage.java:242 | owned-by with no account lists every Microsoft and public record and no Canonical record |
| AzureOSImage.OwnImages | src/main/java/org/dasein/cloud/azure/compute/image/AzureOSImage.java:216-238 | listing lists a catalog record exactly when its owner equals the account number ignoring case |
| AzureOSImage.LookupFinds | src/main/java/org/dasein/cloud/azure/compute/image/AzureOSImage.java:67-94 | with a context and a document the lookup succeeds; what it finds has the id, is in the catalog and is visible; it finds nothing exactly when no visible record has the id |
| AzureOSImage.CanonicalOutOfReach | src/main/java/org/dasein/cloud/azure/compute/image/AzureOSImage.java:67-94 | when only Canonical records carry an id and the account is not Canonical's, the lookup finds nothing |
| AzureOSImage.RemovalDeletesVisibleImage | src/main/java/org/dasein/cloud/azure/compute/image/AzureOSImage.java:323-337 | remove issues a request exactly when a visible record has the id, and otherwise fails with "No such machine image"; the request is a DELETE of `/services/images/id` on the caller's account whose body gives back the found record's name |
| AzureOSImage.SearchMembers | src/main/java/org/dasein/cloud/azure/compute/image/AzureOSImage.java:371-407 | the search result is a sublist of the visible records, and holds a record exactly when it is visible and passes every given test |
| AzureOSImage.SearchIsThreeFilters | src/main/java/org/dasein/cloud/azure/compute/image/AzureOSImage.java:372-405 | applying the architecture, platform and keyword filters one after the other is the search filter |
| AzureOSImage.SearchWithoutCriteria | src/main/java/org/dasein/cloud/azure/compute/image/AzureOSImage.java:371-408 | with no keyword, no architecture and a null or UNKNOWN platform, the search returns every visible record |
| AzureOSImage.SearchThirtyTwoBit | src/main/java/org/dasein/cloud/azure/compute/image/AzureOSImage.java:372-376 | a search for I32 returns nothing, since every record is I64 |
| AzureOSImage.SearchPlatformFamily | src/main/java/org/dasein/cloud/azure/compute/image/AzureOSImage.java:377-396 | a platform request other than UNKNOWN never returns an UNKNOWN record; a Windows-family request returns only Windows-family records, UNIX only Unix-family ones |
| AzureOSImage.SearchKeywordOccurs | src/main/java/org/dasein/cloud/azure/compute/image/AzureOSImage.java:397-405 | a record found by keyword has the keyword, case-sensitively, at some position of its name, description or id |
| ImageCapture.ServiceAndRoleOfPair | src/main/java/org/dasein/cloud/azure/compute/image/AzureOSImage.java:158-164 | an id "service:role", followed by any number of ':', names that service and role |
| ImageCapture.ServiceAndRole | src/main/java/org/dasein/cloud/azure/compute/image/AzureOSImage.java:158-168 | defines the service and role of a capture: the two pieces when Java's `split(":")` gives exactly two, otherwise the whole id as both |
| ImageCapture.ServiceAndRoleCases | src/main/java/org/dasein/cloud/azure/compute/image/AzureOSImage.java:158-168 | conversely, the id serves as both service and role, or it has exactly that shape |
| ImageCapture.ServiceAndRoleNotPair | src/main/java/org/dasein/cloud/azure/compute/image/AzureOSImage.java:158-168 | an id whose only ':' is its last character is used whole for both |
| ImageCapture.ServiceAndRolePairExamples | src/main/java/org/dasein/cloud/azure/compute/image/AzureOSImage.java:158-164 | "svc:role" and "svc:role::" give (svc, role), ":role" gives ("", role) |
| ImageCapture.ServiceAndRoleWholeExamples | src/main/java/org/dasein/cloud/azure/compute/image/AzureOSImage.java:165-168 | "svc:" and "vm" are used whole for both service and role |
| ImageCapture.CapturePathSegments | src/main/java/org/dasein/cloud/azure/compute/image/AzureOSImage.java:169 | read as '/'-separated segments, the capture resource is the hosted-services segments followed by service, "deployments", service, "roleInstances", role, "Operations" |
| ImageCapture.CapturePath | src/main/java/org/dasein/cloud/azure/compute/image/AzureOSImage.java:169 | defines the capture resource: hosted services, service, `deployments`, service, `roleInstances`, role and `Operations`, joined by '/' |
| ImageCapture.CaptureXml | src/main/java/org/dasein/cloud/azure/compute/image/AzureOSImage.java:172-179 | defines the capture body: the `CaptureRoleOperation` envelope with operation type `CaptureRoleOperation`, post-capture action `Delete`, and the label and name as target image label and name |
| ImageCapture.ParseCaptureXmlIff | src/main/java/org/dasein/cloud/azure/compute/image/AzureOSImage.java:172-179 | the CaptureRoleOperation body reads back as (label, name) exactly when it is the envelope around them and neither holds '<' |
| ImageCapture.ImageVirtualMachine | src/main/java/org/dasein/cloud/azure/compute/image/AzureOSImage.java:108-136 | the call fails, before any task exists, exactly when the machine is missing ("No such virtual machine") or not STOPPED ("must be paused"); otherwise it returns the task |
| ImageCapture.CaptureOutcome | src/main/java/org/dasein/cloud/azure/compute/image/AzureOSImage.java:138-190 | defines what the private `imageVirtualMachine` completes with: the configuration error without a context; otherwise the POST of the capture body to the role's Operations resource on the account, and the requested name as the image id |
| ImageCapture.CaptureLabel | src/main/java/org/dasein/cloud/azure/compute/image/AzureOSImage.java:151 | defines the capture label: the base64 encoding of the description's UTF-8 octets |
| ImageCapture.CaptureLabelIsPlain | src/main/java/org/dasein/cloud/azure/compute/image/AzureOSImage.java:151 | the base64 label holds no '<' or '&', whatever the description |
| ImageCapture.CaptureCarriesRequest | src/main/java/org/dasein/cloud/azure/compute/image/AzureOSImage.java:138-190 | for a stopped machine and a context, the task posts to the account a body that gives back the label and the name, returns the name as the image id, and the label decodes through base64 and UTF-8 to the description |
| ImageCapture.CaptureTargetsRole | src/main/java/org/dasein/cloud/azure/compute/image/AzureOSImage.java:158-169 | for an id "service:role" the capture is posted to that role's Operations resource |
| ImageCapture.CaptureNeedsContext | src/main/java/org/dasein/cloud/azure/compute/image/AzureOSImage.java:143-147 | without a context the task completes with the "No context was set" configuration error |
| Text.EqualsIgnoreCaseIsUpperEquality | src/main/java/org/dasein/cloud/azure/compute/image/AzureOSImage.java:293 | two strings are equal ignoring case exactly when their upper-case forms are equal |
| Text.EqualsIgnoreCaseEquivalence | src/main/java/org/dasein/cloud/azure/compute/image/AzureOSImage.java:293 | equality ignoring case is reflexive, symmetric and transitive |
| Text.EqualsIgnoreCase | src/main/java/org/dasein/cloud/azure/compute/image/AzureOSImage.java:293 | defines `String.equalsIgnoreCase`: equal length and, position by position, Java's character test (the same character, the same upper case, or the same lower case of the upper cases), with ASCII case mapping |
| Text.Trim | src/main/java/org/dasein/cloud/azure/compute/image/AzureOSImage.java:462 | the result is a slice of the input that neither starts nor ends with a character at or below U+0020, and everything cut off is such a character |
| Text.ContainsOccurs | src/main/java/org/dasein/cloud/azure/compute/image/AzureOSImage.java:398-400 | `contains` holds exactly when the pattern occurs at some position |
| Text.Contains | src/main/java/org/dasein/cloud/azure/compute/image/AzureOSImage.java:398-400 | defines `String.contains`: the pattern occurs as a contiguous slice of the text |
| Text.SplitInTwoFromShape | src/main/java/org/dasein/cloud/azure/compute/image/AzureOSImage.java:158 | `split` of "p:q" followed by separators, neither piece holding the separator and q not empty, gives exactly [p, q] |
| Text.SplitInTwoHasShape | src/main/java/org/dasein/cloud/azure/compute/image/AzureOSImage.java:158 | conversely, a `split` into two pieces p and q means the input is p, the separator, q and then only separators |
| Text.JoinSplitAll | src/main/java/org/dasein/cloud/azure/compute/image/AzureOSImage.java:158 | joining the pieces of a split with the separator gives the input back |
| Text.JavaSplit | src/main/java/org/dasein/cloud/azure/compute/image/AzureOSImage.java:158 | defines Java's `String.split` with a one-character pattern: an input without the separator comes back whole; otherwise every piece between separators, with trailing empty pieces dropped |
| Text.SplitAllAround | src/main/java/org/dasein/cloud/azure/compute/image/AzureOSImage.java:169 | splitting around a separator is splitting each side |
| Text.UnwrapIff | src/main/java/org/dasein/cloud/azure/compute/image/AzureOSImage.java:329-333 | removing a fixed head and tail gives m exactly when the input is head, m and tail |
| Seqs.FilterIsSubsequence | src/main/java/org/dasein/cloud/azure/compute/image/AzureOSImage.java:286-303 | a filter's result is a sublist of its input in the same order |
| Seqs.FilterCount | src/main/java/org/dasein/cloud/azure/compute/image/AzureOSImage.java:286-303 | a kept value occurs as often as in the input, a dropped one never |
| Seqs.FilterCompose | src/main/java/org/dasein/cloud/azure/compute/image/AzureOSImage.java:371-407 | filtering by p and then by q is filtering by "p and q" |
| Seqs.FilterMapMembers | src/main/java/org/dasein/cloud/azure/compute/image/AzureOSImage.java:286-290 | a value is among the mapped results exactly when some element maps to it |
| Base64.DecodeEncode | src/main/java/org/dasein/cloud/azure/compute/image/AzureOSImage.java:151 | decoding the padded base64 encoding gives the octets back |
| Base64.Encode | src/main/java/org/dasein/cloud/azure/compute/image/AzureOSImage.java:151 | defines `Base64.encodeBase64`: each group of three octets as four characters of the standard alphabet, a final group of one or two octets padded with '=', no line breaks |
| Base64.EncodeLength | src/main/java/org/dasein/cloud/azure/compute/image/AzureOSImage.java:151 | the encoding has four characters per started group of three octets, so it is unchunked and padded |
| Base64.EncodeHasNoMarkup | src/main/java/org/dasein/cloud/azure/compute/image/AzureOSImage.java:151 | an encoding holds no '<' or '&' |
| Utf8.DecodeEncode | src/main/java/org/dasein/cloud/azure/compute/image/AzureOSImage.java:151 | decoding the UTF-8 encoding of a string gives the string back |
| Utf8.Encode | src/main/java/org/dasein/cloud/azure/compute/image/AzureOSImage.java:151 | defines `getBytes("utf-8")`: each character as its one- to four-octet UTF-8 sequence, in order |
| Utf8.EncodeAscii | src/main/java/org/dasein/cloud/azure/compute/image/AzureOSImage.java:151 | an ASCII string encodes to one octet per character, its code |

## Left out

- HTTP transport and request signing (`AzureMethod.getAsXML`, `post`, `invoke`) are I/O. The fetched catalog is an input, and a sent request is a `Request` value. Responses and failures of `post` and `invoke` are not modelled.
- DOM parsing (`getElementsByTagName`, child-node iteration) is library code. An entry is the sequence of its child nodes, each given as node name, text-node flag, has-children flag and first child's value. A `null` entry (line 442) cannot occur in a `NodeList` and is not represented.
- `PopulatorThread`, `Jiterator` and `provider.hold()` / `release()` are concurrency and resource plumbing. Population produces a plain sequence, and an error raised inside it reaches the caller.
- The capture thread, `AsynchronousTask` completion and `setPercentComplete(2.0)` (lines 117-135, 181) are concurrency. The task is the outcome the thread would complete it with. The context is read when the thread runs and is a separate parameter.
- Logging is output only.
- `Platform.guess`, `Platform.isWindows` and `Platform.isUnix` are framework code and are uninterpreted function parameters. `AzureVM.HOSTED_SERVICES` is a parameter, since `AzureVM` is not part of this model. The virtual machine support's `getVirtualMachine` is represented by its result.
- `Text.EqualsIgnoreCase` folds ASCII letters only. Java's `equalsIgnoreCase` also folds other letters. Java compares the upper-cased characters and then their lower-cased forms, so some non-ASCII spellings equal an ASCII constant there. For example, `"uſer"` (U+017F) is the category `user` (line 467), and `"lınux"` (U+0131) and `"lİnux"` (U+0130) are the os `linux` (line 496). Java recognises such spellings of the category, os and node-name constants; the model does not.
- Utf8.Encode: Dafny strings are sequences of Unicode scalar values. A Java string with an unpaired surrogate, which `getBytes("utf-8")` writes as '?', cannot be represented.
- The `UnsupportedEncodingException` branch (lines 153-155) cannot happen for "utf-8" and is not modelled.
- Null node values, null account numbers and null owner ids are not represented. In the source the owner is null when the account number is null, because line 468 copies `ctx.getAccountNumber()`. The model represents no null account number, so the `getProviderOwnerId() == null` test of `populateImages` (line 299) never holds here. The `accounts == null` branch is modelled although every caller passes a list.
- A null current state of the virtual machine, and the `NullPointerException` it would raise at line 114, are not represented.
- The XML bodies copy the name, label and description text in without escaping, as the source does. The read-back lemmas therefore hold only for texts without '<'.
- The other operations of the interface are constants or fixed "not supported" exceptions: `downloadImage`, `getProviderTermForImage`, `hasPublicLibrary`, `imageVirtualMachineToStorage`, `installImageFromUpload`, `listSupportedFormats`, `listShares`, `registerMachineImage`, `shareMachineImage`, the `supports*` flags, `transfer` and `mapServiceAction`.
- `isSubscribed` (lines 211-213) delegates to the data-center services of the provider, another class, and is not modelled.
- The tags map (line 520) is always empty and is kept only as a field.
