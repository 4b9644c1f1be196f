/** AzureOSImage's catalog operations: populating the image list from the
    catalog document, filtering it by owner, looking an image up, searching,
    and building the DELETE request that removes an image. */
module AzureOSImage {
  import opened Wrappers
  import opened Text
  import opened Seqs
  import opened ImageTypes
  import opened ImageMapping

  // ---------------------------------------------------------------------------
  // populateImages
  // ---------------------------------------------------------------------------

  /** toImage as a function of the entry alone. */
  function ToImageOf(ctx: Context, lib: PlatformLib): Entry -> Option<MachineImage> {
    e => MapEntry(ctx, lib, e)
  }

  /** The records the catalog's entries map to, in document order; the entries
      toImage rejects contribute nothing. */
  function Catalog(ctx: Context, lib: PlatformLib, entries: seq<Entry>): seq<MachineImage> {
    FilterMap(entries, ToImageOf(ctx, lib))
  }

  /** What one entry adds to the populated list. */
  lemma PopulateStep(ctx: Context, lib: PlatformLib, entries: seq<Entry>, i: nat, accounts: Option<seq<string>>)
    requires i < |entries|
    ensures Filter(Catalog(ctx, lib, entries[..i + 1]), OwnedBy(accounts)) ==
            Filter(Catalog(ctx, lib, entries[..i]), OwnedBy(accounts)) +
            Filter(AsSeq(MapEntry(ctx, lib, entries[i])), OwnedBy(accounts))
  {
    assert entries[..i + 1] == entries[..i] + [entries[i]];
    FilterMapSnoc(entries[..i], entries[i], ToImageOf(ctx, lib));
    FilterAppend(Catalog(ctx, lib, entries[..i]), AsSeq(MapEntry(ctx, lib, entries[i])), OwnedBy(accounts));
  }

  /** populateImages' owner test. With an account list (every caller passes
      one) the owner must equal one of the accounts ignoring case; with none
      it must be MICROSOFT or PUBLIC exactly. */
  predicate Owned(accounts: Option<seq<string>>, owner: string) {
    match accounts
    case Some(list) => exists a :: a in list && EqualsIgnoreCase(a, owner)
    case None => owner == MICROSOFT || owner == PUBLIC
  }

  function OwnedBy(accounts: Option<seq<string>>): MachineImage -> bool {
    (image: MachineImage) => Owned(accounts, image.ownerId)
  }

  /** Raised when the catalog request returns no document, whatever the cause. */
  const ILLEGAL_ACCESS: CloudError :=
    AuthenticationFault(403, "Illegal Access", "Illegal access to requested resource")

  /** What populateImages pushes: the owned records of the catalog in document
      order, or the access error for a missing document. */
  function Populated(ctx: Context, lib: PlatformLib, doc: Option<seq<Entry>>,
                     accounts: Option<seq<string>>): Result<seq<MachineImage>, CloudError>
  {
    match doc
    case None => Err(ILLEGAL_ACCESS)
    case Some(entries) => Ok(Filter(Catalog(ctx, lib, entries), OwnedBy(accounts)))
  }

  /** The inner loop of populateImages: is the owner one of the accounts? */
  method MatchesAnyAccount(accounts: seq<string>, owner: string) returns (found: bool)
    ensures found <==> exists a :: a in accounts && EqualsIgnoreCase(a, owner)
  {
    found := false;
    for i := 0 to |accounts|
      invariant forall j :: 0 <= j < i ==> !EqualsIgnoreCase(accounts[j], owner)
    {
      if EqualsIgnoreCase(accounts[i], owner) {
        found := true;
        break;
      }
    }
  }

  /** The owner test populateImages applies to one mapped entry: what of it
      is pushed. */
  method KeepIfOwned(accounts: Option<seq<string>>, image: Option<MachineImage>)
    returns (kept: seq<MachineImage>)
    ensures kept == Filter(AsSeq(image), OwnedBy(accounts))
  {
    kept := [];
    if image.None? {
      return;
    }
    var owner := image.value.ownerId;
    var matched: bool;
    if accounts.Some? {
      matched := MatchesAnyAccount(accounts.value, owner);
    } else {
      matched := owner == MICROSOFT || owner == PUBLIC;
    }
    FilterSingle(image.value, OwnedBy(accounts));
    if matched {
      kept := [image.value];
    }
  }

  /** populateImages: a missing document fails before anything is pushed;
      otherwise every entry is mapped and the owned records are pushed in order. */
  method PopulateImages(ctx: Context, lib: PlatformLib, doc: Option<seq<Entry>>,
                        accounts: Option<seq<string>>) returns (r: Result<seq<MachineImage>, CloudError>)
    ensures r == Populated(ctx, lib, doc, accounts)
  {
    if doc.None? {
      return Err(ILLEGAL_ACCESS);
    }
    var entries := doc.value;
    var pushed: seq<MachineImage> := [];
    for i := 0 to |entries|
      invariant pushed == Filter(Catalog(ctx, lib, entries[..i]), OwnedBy(accounts))
    {
      var image := ToImage(ctx, lib, entries[i]);
      var kept := KeepIfOwned(accounts, image);
      PopulateStep(ctx, lib, entries, i, accounts);
      pushed := pushed + kept;
    }
    assert entries[..|entries|] == entries;
    return Ok(pushed);
  }

  // ---------------------------------------------------------------------------
  // The owner lists of the public operations
  // ---------------------------------------------------------------------------

  /** getMachineImage and searchMachineImages look at Microsoft's, the
      caller's and the public images. */
  function VisibleAccounts(ctx: Context): seq<string> {
    [MICROSOFT, ctx.accountNumber, PUBLIC]
  }

  /** listMachineImagesOwnedBy: the given account, or without one Microsoft's
      and the public images. */
  function OwnedByAccounts(accountId: Option<string>): seq<string> {
    match accountId
    case None => [MICROSOFT, PUBLIC]
    case Some(a) => [a]
  }

  method ListMachineImages(ctx: Option<Context>, lib: PlatformLib, doc: Option<seq<Entry>>)
    returns (r: Result<seq<MachineImage>, CloudError>)
    ensures ctx.None? ==> r == Err(ConfigError(NO_CONTEXT))
    ensures ctx.Some? ==> r == Populated(ctx.value, lib, doc, Some([ctx.value.accountNumber]))
  {
    if ctx.None? {
      return Err(ConfigError(NO_CONTEXT));
    }
    r := PopulateImages(ctx.value, lib, doc, Some([ctx.value.accountNumber]));
  }

  method ListMachineImagesOwnedBy(ctx: Option<Context>, lib: PlatformLib, doc: Option<seq<Entry>>,
                                  accountId: Option<string>)
    returns (r: Result<seq<MachineImage>, CloudError>)
    ensures ctx.None? ==> r == Err(ConfigError(NO_CONTEXT))
    ensures ctx.Some? ==> r == Populated(ctx.value, lib, doc, Some(OwnedByAccounts(accountId)))
  {
    var accounts := OwnedByAccounts(accountId);
    if ctx.None? {
      return Err(ConfigError(NO_CONTEXT));
    }
    r := PopulateImages(ctx.value, lib, doc, Some(accounts));
  }

  // ---------------------------------------------------------------------------
  // getMachineImage and isImageSharedWithPublic
  // ---------------------------------------------------------------------------

  /** The first image with exactly the given id. */
  function FirstWithId(images: seq<MachineImage>, id: string): (r: Option<MachineImage>)
    ensures r.None? <==> forall k :: 0 <= k < |images| ==> images[k].id != id
    ensures r.Some? ==> exists k :: 0 <= k < |images| && images[k] == r.value && r.value.id == id &&
                                    forall j :: 0 <= j < k ==> images[j].id != id
  {
    if images == [] then None
    else if images[0].id == id then Some(images[0])
    else
      var r := FirstWithId(images[1..], id);
      assert r.Some? ==> exists k :: 0 < k < |images| && images[k] == r.value &&
                                     forall j :: 0 <= j < k ==> images[j].id != id by {
        if r.Some? {
          var k :| 0 <= k < |images[1..]| && images[1..][k] == r.value &&
                   forall j :: 0 <= j < k ==> images[1..][j].id != id;
          assert images[k + 1] == r.value;
          assert forall j :: 0 <= j < k + 1 ==> images[j].id != id by {
            forall j | 0 <= j < k + 1 ensures images[j].id != id {
              if j > 0 { assert images[j] == images[1..][j - 1]; }
            }
          }
        }
      }
      assert r.None? ==> forall k :: 0 <= k < |images| ==> images[k].id != id by {
        if r.None? {
          forall k | 0 <= k < |images| ensures images[k].id != id {
            if k > 0 { assert images[k] == images[1..][k - 1]; }
          }
        }
      }
      r
  }

  /** What getMachineImage returns: the first visible image with the id, None
      (null) when there is none, or the error of a missing context or document. */
  function Lookup(ctx: Option<Context>, lib: PlatformLib, doc: Option<seq<Entry>>, id: string)
    : Result<Option<MachineImage>, CloudError>
  {
    match ctx
    case None => Err(ConfigError(NO_CONTEXT))
    case Some(c) =>
      match Populated(c, lib, doc, Some(VisibleAccounts(c)))
      case Err(e) => Err(e)
      case Ok(images) => Ok(FirstWithId(images, id))
  }

  method GetMachineImage(ctx: Option<Context>, lib: PlatformLib, doc: Option<seq<Entry>>, id: string)
    returns (r: Result<Option<MachineImage>, CloudError>)
    ensures r == Lookup(ctx, lib, doc, id)
  {
    if ctx.None? {
      return Err(ConfigError(NO_CONTEXT));
    }
    var populated := PopulateImages(ctx.value, lib, doc, Some(VisibleAccounts(ctx.value)));
    if populated.Err? {
      return Err(populated.error);
    }
    var found := FindById(populated.value, id);
    return Ok(found);
  }

  /** The loop of getMachineImage over the populated list. */
  method FindById(images: seq<MachineImage>, id: string) returns (found: Option<MachineImage>)
    ensures found == FirstWithId(images, id)
  {
    for i := 0 to |images|
      invariant forall j :: 0 <= j < i ==> images[j].id != id
    {
      if id == images[i].id {
        return Some(images[i]);
      }
    }
    return None;
  }

  /** isImageSharedWithPublic: the image is found and owned by MICROSOFT or
      PUBLIC (compared exactly). */
  method IsImageSharedWithPublic(ctx: Option<Context>, lib: PlatformLib, doc: Option<seq<Entry>>, id: string)
    returns (r: Result<bool, CloudError>)
    ensures Lookup(ctx, lib, doc, id).Err? ==> r == Err(Lookup(ctx, lib, doc, id).error)
    ensures Lookup(ctx, lib, doc, id).Ok? ==>
            var found := Lookup(ctx, lib, doc, id).value;
            r == Ok(found.Some? && (found.value.ownerId == MICROSOFT || found.value.ownerId == PUBLIC))
  {
    var image := GetMachineImage(ctx, lib, doc, id);
    if image.Err? {
      return Err(image.error);
    }
    r := Ok(image.value.Some? && (MICROSOFT == image.value.value.ownerId || PUBLIC == image.value.value.ownerId));
  }

  // ---------------------------------------------------------------------------
  // searchMachineImages
  // ---------------------------------------------------------------------------

  predicate ArchitectureMatches(requested: Option<Architecture>, image: MachineImage) {
    requested.None? || requested.value == image.architecture
  }

  /** No platform or UNKNOWN requested: anything passes. Otherwise an UNKNOWN
      image fails; a Windows-family request takes any Windows-family image, a
      UNIX request any Unix-family image, anything else needs equality. */
  predicate PlatformMatches(lib: PlatformLib, requested: Option<Platform>, p: Platform) {
    match requested
    case None => true
    case Some(q) =>
      q == Unknown ||
      (p != Unknown &&
       if lib.isWindows(q) then lib.isWindows(p)
       else if q == Unix then lib.isUnix(p)
       else q == p)
  }

  /** The keyword occurs, case-sensitively, in the name, description or id. */
  predicate KeywordMatches(keyword: Option<string>, image: MachineImage) {
    match keyword
    case None => true
    case Some(k) => Contains(image.name, k) || Contains(image.description, k) || Contains(image.id, k)
  }

  function SearchTest(lib: PlatformLib, keyword: Option<string>, platform: Option<Platform>,
                      architecture: Option<Architecture>): MachineImage -> bool
  {
    (image: MachineImage) => ArchitectureMatches(architecture, image) && PlatformMatches(lib, platform, image.platform) &&
             KeywordMatches(keyword, image)
  }

  function SearchResult(ctx: Option<Context>, lib: PlatformLib, doc: Option<seq<Entry>>,
                        keyword: Option<string>, platform: Option<Platform>,
                        architecture: Option<Architecture>): Result<seq<MachineImage>, CloudError>
  {
    match ctx
    case None => Err(ConfigError(NO_CONTEXT))
    case Some(c) =>
      match Populated(c, lib, doc, Some(VisibleAccounts(c)))
      case Err(e) => Err(e)
      case Ok(images) => Ok(Filter(images, SearchTest(lib, keyword, platform, architecture)))
  }

  method SearchMachineImages(ctx: Option<Context>, lib: PlatformLib, doc: Option<seq<Entry>>,
                             keyword: Option<string>, platform: Option<Platform>,
                             architecture: Option<Architecture>)
    returns (r: Result<seq<MachineImage>, CloudError>)
    ensures r == SearchResult(ctx, lib, doc, keyword, platform, architecture)
  {
    if ctx.None? {
      return Err(ConfigError(NO_CONTEXT));
    }
    var populated := PopulateImages(ctx.value, lib, doc, Some(VisibleAccounts(ctx.value)));
    if populated.Err? {
      return Err(populated.error);
    }
    var found := Refine(lib, populated.value, keyword, platform, architecture);
    return Ok(found);
  }

  /** The loop of searchMachineImages: each test that is given and fails
      skips the image. */
  method Refine(lib: PlatformLib, all: seq<MachineImage>, keyword: Option<string>,
                platform: Option<Platform>, architecture: Option<Architecture>)
    returns (images: seq<MachineImage>)
    ensures images == Filter(all, SearchTest(lib, keyword, platform, architecture))
  {
    ghost var test := SearchTest(lib, keyword, platform, architecture);
    images := [];
    for i := 0 to |all|
      invariant images == Filter(all[..i], test)
    {
      var image := all[i];
      assert all[..i + 1][..i] == all[..i];
      if architecture.Some? {
        if architecture.value != image.architecture {
          continue;
        }
      }
      if platform.Some? && platform.value != Unknown {
        var p := image.platform;
        if p == Unknown {
          continue;
        } else if lib.isWindows(platform.value) {
          if !lib.isWindows(p) {
            continue;
          }
        } else if platform.value == Unix {
          if !lib.isUnix(p) {
            continue;
          }
        } else if platform.value != p {
          continue;
        }
      }
      if keyword.Some? {
        if !Contains(image.name, keyword.value) {
          if !Contains(image.description, keyword.value) {
            if !Contains(image.id, keyword.value) {
              continue;
            }
          }
        }
      }
      images := images + [image];
    }
    assert all[..|all|] == all;
  }

  // ---------------------------------------------------------------------------
  // remove
  // ---------------------------------------------------------------------------

  const REMOVE_HEAD: string :=
    "<OSImage xmlns=\"http://schemas.microsoft.com/windowsazure\" xmlns:i=\"http://www.w3.org/2001/XMLSchema-instance\">"
    + "<Label>"
  const REMOVE_TAIL: string := "</Label>" + "</OSImage>"

  /** The DELETE body: the image's label (its name), not escaped. */
  function RemoveXml(imageLabel: string): string {
    REMOVE_HEAD + imageLabel + REMOVE_TAIL
  }

  /** What remove does: a missing context or an image getMachineImage cannot
      find fails and issues nothing; otherwise the DELETE of the image's
      resource, labelled with the image's name. */
  function Removal(ctx: Option<Context>, lib: PlatformLib, doc: Option<seq<Entry>>, id: string)
    : Result<Request, CloudError>
  {
    match ctx
    case None => Err(ConfigError(NO_CONTEXT))
    case Some(c) =>
      match Lookup(ctx, lib, doc, id)
      case Err(e) => Err(e)
      case Ok(None) => Err(CloudFault("No such machine image: " + id))
      case Ok(Some(image)) => Ok(Request("DELETE", c.accountNumber, IMAGES + "/" + id, RemoveXml(image.name)))
  }

  method Remove(ctx: Option<Context>, lib: PlatformLib, doc: Option<seq<Entry>>, id: string)
    returns (r: Result<Request, CloudError>)
    ensures r == Removal(ctx, lib, doc, id)
  {
    if ctx.None? {
      return Err(ConfigError(NO_CONTEXT));
    }
    var found := GetMachineImage(ctx, lib, doc, id);
    if found.Err? {
      return Err(found.error);
    }
    if found.value.None? {
      return Err(CloudFault("No such machine image: " + id));
    }
    var imageLabel := found.value.value.name;
    var xml := RemoveXml(imageLabel);
    r := Ok(Request("DELETE", ctx.value.accountNumber, IMAGES + "/" + id, xml));
  }

  /** The label remove sends, read back from the body: None unless the body
      is the OSImage envelope around a text without markup. */
  function ParseRemoveXml(xml: string): Option<string> {
    match Unwrap(xml, REMOVE_HEAD, REMOVE_TAIL)
    case None => None
    case Some(imageLabel) => if '<' in imageLabel then None else Some(imageLabel)
  }

  /** The DELETE body carries the label and nothing else: reading it back
      gives the label exactly when the label holds no '<'. */
  lemma ParseRemoveXmlIff(xml: string, imageLabel: string)
    ensures ParseRemoveXml(xml) == Some(imageLabel) <==> xml == RemoveXml(imageLabel) && '<' !in imageLabel
  {
    UnwrapIff(xml, REMOVE_HEAD, imageLabel, REMOVE_TAIL);
  }

  // ---------------------------------------------------------------------------
  // Properties: the catalog and the owner filter
  // ---------------------------------------------------------------------------

  /** Every record of the catalog is what toImage makes of one of the entries,
      and every record toImage makes is in the catalog. */
  lemma CatalogOrigin(ctx: Context, lib: PlatformLib, entries: seq<Entry>, image: MachineImage)
    ensures image in Catalog(ctx, lib, entries) <==>
            exists k :: 0 <= k < |entries| && MapEntry(ctx, lib, entries[k]) == Some(image)
  {
    FilterMapMembers(entries, ToImageOf(ctx, lib), image);
  }

  /** An entry without a name element contributes no record, wherever it sits. */
  lemma NamelessEntryVanishes(ctx: Context, lib: PlatformLib, a: seq<Entry>, e: Entry, b: seq<Entry>)
    requires forall k :: 0 <= k < |e| ==> !Selects(e[k], "name")
    ensures Catalog(ctx, lib, a + [e] + b) == Catalog(ctx, lib, a + b)
  {
    NoNameNoRecord(ctx, lib, e);
    FilterMapSkips(a, e, b, ToImageOf(ctx, lib));
  }

  /** The facts toImage fixes hold for every record of the catalog. */
  lemma CatalogRecords(ctx: Context, lib: PlatformLib, entries: seq<Entry>, image: MachineImage)
    requires image in Catalog(ctx, lib, entries)
    ensures image.state == Active && image.architecture == I64 && image.imageType == Storage
    ensures image.regionId == ctx.regionId
    ensures image.ownerId in {ctx.accountNumber, MICROSOFT, PUBLIC, CANONICAL}
  {
    CatalogOrigin(ctx, lib, entries, image);
    var k :| 0 <= k < |entries| && MapEntry(ctx, lib, entries[k]) == Some(image);
    RecordConstants(ctx, lib, entries[k]);
    OwnerIsKnown(ctx, lib, entries[k]);
  }

  /** A record is pushed exactly when it is in the catalog and owned. */
  lemma PopulatedMembers(ctx: Context, lib: PlatformLib, entries: seq<Entry>,
                         accounts: Option<seq<string>>, image: MachineImage)
    ensures image in Populated(ctx, lib, Some(entries), accounts).value <==>
            image in Catalog(ctx, lib, entries) && Owned(accounts, image.ownerId)
  {
    FilterMembers(Catalog(ctx, lib, entries), OwnedBy(accounts), image);
  }

  /** Nothing is duplicated or reordered: the pushed list is a sublist of the
      catalog, and an owned record occurs as often as in the catalog. */
  lemma PopulatedInOrder(ctx: Context, lib: PlatformLib, entries: seq<Entry>,
                         accounts: Option<seq<string>>, image: MachineImage)
    ensures IsSubsequence(Populated(ctx, lib, Some(entries), accounts).value, Catalog(ctx, lib, entries))
    ensures multiset(Populated(ctx, lib, Some(entries), accounts).value)[image] ==
            if Owned(accounts, image.ownerId) then multiset(Catalog(ctx, lib, entries))[image] else 0
  {
    FilterIsSubsequence(Catalog(ctx, lib, entries), OwnedBy(accounts));
    FilterCount(Catalog(ctx, lib, entries), OwnedBy(accounts), image);
  }

  lemma OwnerConstantsDiffer()
    ensures !EqualsIgnoreCase(MICROSOFT, CANONICAL) && !EqualsIgnoreCase(PUBLIC, CANONICAL)
    ensures !EqualsIgnoreCase(MICROSOFT, PUBLIC) && !EqualsIgnoreCase(PUBLIC, MICROSOFT)
    ensures !EqualsIgnoreCase(CANONICAL, MICROSOFT) && !EqualsIgnoreCase(CANONICAL, PUBLIC)
  {
    assert !CharEqualsIgnoreCase(MICROSOFT[2], CANONICAL[2]);
    assert !CharEqualsIgnoreCase(CANONICAL[2], MICROSOFT[2]);
  }

  /** The owner test of getMachineImage and searchMachineImages, for the
      owners toImage can produce. */
  lemma VisibleOwner(account: string, owner: string)
    requires owner in {account, MICROSOFT, PUBLIC, CANONICAL}
    ensures Owned(Some([MICROSOFT, account, PUBLIC]), owner) <==>
            owner != CANONICAL || EqualsIgnoreCase(account, CANONICAL)
  {
    var accs := [MICROSOFT, account, PUBLIC];
    EqualsIgnoreCaseEquivalence(owner, owner, owner);
    if owner == CANONICAL {
      OwnerConstantsDiffer();
      if Owned(Some(accs), owner) {
        var a :| a in accs && EqualsIgnoreCase(a, owner);
        assert a == account;
      }
      if EqualsIgnoreCase(account, CANONICAL) {
        assert account in accs;
      }
    } else {
      assert owner in accs;
    }
  }

  /** What getMachineImage and searchMachineImages see of the catalog:
      Microsoft's, the caller's and the public records always; Canonical's
      only when the caller's account number is "--Canonical--" up to case. */
  lemma VisibleRecords(ctx: Context, lib: PlatformLib, entries: seq<Entry>, image: MachineImage)
    requires image in Catalog(ctx, lib, entries)
    ensures image in Populated(ctx, lib, Some(entries), Some(VisibleAccounts(ctx))).value <==>
            image.ownerId != CANONICAL || EqualsIgnoreCase(ctx.accountNumber, CANONICAL)
  {
    CatalogRecords(ctx, lib, entries, image);
    PopulatedMembers(ctx, lib, entries, Some(VisibleAccounts(ctx)), image);
    VisibleOwner(ctx.accountNumber, image.ownerId);
  }

  /** listMachineImagesOwnedBy(null) never lists Canonical's records, and
      lists every one of Microsoft's and the public records. */
  lemma PublicLibrary(ctx: Context, lib: PlatformLib, entries: seq<Entry>, image: MachineImage)
    requires image in Catalog(ctx, lib, entries)
    ensures image.ownerId == CANONICAL ==>
            image !in Populated(ctx, lib, Some(entries), Some(OwnedByAccounts(None))).value
    ensures image.ownerId == MICROSOFT || image.ownerId == PUBLIC ==>
            image in Populated(ctx, lib, Some(entries), Some(OwnedByAccounts(None))).value
  {
    var accs := OwnedByAccounts(None);
    PopulatedMembers(ctx, lib, entries, Some(accs), image);
    if image.ownerId == CANONICAL {
      OwnerConstantsDiffer();
      assert !Owned(Some(accs), image.ownerId) by {
        forall a | a in accs ensures !EqualsIgnoreCase(a, CANONICAL) {
          assert a == MICROSOFT || a == PUBLIC;
        }
      }
    }
    if image.ownerId == MICROSOFT || image.ownerId == PUBLIC {
      EqualsIgnoreCaseEquivalence(image.ownerId, image.ownerId, image.ownerId);
      assert image.ownerId in accs;
    }
  }

  /** listMachineImages lists every record the caller owns, and none owned by
      an owner whose id differs from the account number beyond case. */
  lemma OwnImages(ctx: Context, lib: PlatformLib, entries: seq<Entry>, image: MachineImage)
    requires image in Catalog(ctx, lib, entries)
    ensures image in Populated(ctx, lib, Some(entries), Some([ctx.accountNumber])).value <==>
            EqualsIgnoreCase(ctx.accountNumber, image.ownerId)
  {
    PopulatedMembers(ctx, lib, entries, Some([ctx.accountNumber]), image);
    OwnedBySingle(ctx.accountNumber, image.ownerId);
  }

  lemma OwnedBySingle(account: string, owner: string)
    ensures Owned(Some([account]), owner) <==> EqualsIgnoreCase(account, owner)
  {
    assert account in [account];
  }

  // ---------------------------------------------------------------------------
  // Properties: getMachineImage, isImageSharedWithPublic, remove
  // ---------------------------------------------------------------------------

  /** getMachineImage returns a visible catalog record with exactly the id,
      the first in document order; it returns null exactly when no visible
      record has the id. */
  lemma LookupFinds(ctx: Context, lib: PlatformLib, entries: seq<Entry>, id: string)
    ensures Lookup(Some(ctx), lib, Some(entries), id).Ok?
    ensures var found := Lookup(Some(ctx), lib, Some(entries), id).value;
            found.Some? ==> found.value.id == id && found.value in Catalog(ctx, lib, entries) &&
                            Owned(Some(VisibleAccounts(ctx)), found.value.ownerId)
    ensures Lookup(Some(ctx), lib, Some(entries), id).value.None? <==>
            forall image :: image in Catalog(ctx, lib, entries) && Owned(Some(VisibleAccounts(ctx)), image.ownerId)
                            ==> image.id != id
  {
    var images := Populated(ctx, lib, Some(entries), Some(VisibleAccounts(ctx))).value;
    var found := FirstWithId(images, id);
    if found.Some? {
      PopulatedMembers(ctx, lib, entries, Some(VisibleAccounts(ctx)), found.value);
    }
    forall image | image in Catalog(ctx, lib, entries) && Owned(Some(VisibleAccounts(ctx)), image.ownerId)
      ensures found.None? ==> image.id != id
    {
      PopulatedMembers(ctx, lib, entries, Some(VisibleAccounts(ctx)), image);
    }
  }

  /** A record owned by Canonical is out of reach of getMachineImage, and so of
      isImageSharedWithPublic and remove, unless the account number is
      "--Canonical--" up to case: if it is the only one with its id, the
      lookup finds nothing and remove fails without a request. */
  lemma CanonicalOutOfReach(ctx: Context, lib: PlatformLib, entries: seq<Entry>, id: string)
    requires !EqualsIgnoreCase(ctx.accountNumber, CANONICAL)
    requires forall image :: image in Catalog(ctx, lib, entries) && image.id == id ==> image.ownerId == CANONICAL
    ensures Lookup(Some(ctx), lib, Some(entries), id) == Ok(None)
  {
    LookupFinds(ctx, lib, entries, id);
    forall image | image in Catalog(ctx, lib, entries) && Owned(Some(VisibleAccounts(ctx)), image.ownerId)
      ensures image.id != id
    {
      VisibleRecords(ctx, lib, entries, image);
      PopulatedMembers(ctx, lib, entries, Some(VisibleAccounts(ctx)), image);
    }
  }

  // ---------------------------------------------------------------------------
  // Properties: searchMachineImages
  // ---------------------------------------------------------------------------

  /** A search keeps the visible records that pass every given test, in order,
      each as often as it occurs. */
  lemma SearchMembers(ctx: Context, lib: PlatformLib, entries: seq<Entry>, keyword: Option<string>,
                      platform: Option<Platform>, architecture: Option<Architecture>, image: MachineImage)
    ensures var visible := Populated(ctx, lib, Some(entries), Some(VisibleAccounts(ctx))).value;
            var found := SearchResult(Some(ctx), lib, Some(entries), keyword, platform, architecture).value;
            && IsSubsequence(found, visible)
            && (image in found <==>
                image in visible && ArchitectureMatches(architecture, image) &&
                PlatformMatches(lib, platform, image.platform) && KeywordMatches(keyword, image))
  {
    var visible := Populated(ctx, lib, Some(entries), Some(VisibleAccounts(ctx))).value;
    FilterIsSubsequence(visible, SearchTest(lib, keyword, platform, architecture));
    FilterMembers(visible, SearchTest(lib, keyword, platform, architecture), image);
  }

  /** The three tests can be applied one after the other, in the source's order. */
  lemma SearchIsThreeFilters(lib: PlatformLib, images: seq<MachineImage>, keyword: Option<string>,
                             platform: Option<Platform>, architecture: Option<Architecture>)
    ensures Filter(Filter(Filter(images, (i: MachineImage) => ArchitectureMatches(architecture, i)),
                          (i: MachineImage) => PlatformMatches(lib, platform, i.platform)),
                   (i: MachineImage) => KeywordMatches(keyword, i)) ==
            Filter(images, SearchTest(lib, keyword, platform, architecture))
  {
    var a := (i: MachineImage) => ArchitectureMatches(architecture, i);
    var p := (i: MachineImage) => PlatformMatches(lib, platform, i.platform);
    var k := (i: MachineImage) => KeywordMatches(keyword, i);
    var ap := (i: MachineImage) => a(i) && p(i);
    FilterCompose(images, a, p, ap);
    FilterCompose(images, ap, k, SearchTest(lib, keyword, platform, architecture));
  }

  /** No keyword, no platform (or UNKNOWN) and no architecture: the search
      returns every visible record. */
  lemma SearchWithoutCriteria(ctx: Context, lib: PlatformLib, entries: seq<Entry>, platform: Option<Platform>)
    requires platform.None? || platform == Some(Unknown)
    ensures SearchResult(Some(ctx), lib, Some(entries), None, platform, None) ==
            Populated(ctx, lib, Some(entries), Some(VisibleAccounts(ctx)))
  {
    var visible := Populated(ctx, lib, Some(entries), Some(VisibleAccounts(ctx))).value;
    FilterAll(visible, SearchTest(lib, None, platform, None));
  }

  /** Every record toImage makes is 64-bit, so a search for I32 finds nothing. */
  lemma SearchThirtyTwoBit(ctx: Context, lib: PlatformLib, entries: seq<Entry>,
                           keyword: Option<string>, platform: Option<Platform>)
    ensures SearchResult(Some(ctx), lib, Some(entries), keyword, platform, Some(I32)) == Ok([])
  {
    var found := SearchResult(Some(ctx), lib, Some(entries), keyword, platform, Some(I32)).value;
    if found != [] {
      var image := found[0];
      SearchMembers(ctx, lib, entries, keyword, platform, Some(I32), image);
      PopulatedMembers(ctx, lib, entries, Some(VisibleAccounts(ctx)), image);
      CatalogRecords(ctx, lib, entries, image);
    }
  }

  /** A platform request other than UNKNOWN never returns a record whose
      platform is UNKNOWN; a Windows-family request returns only
      Windows-family records, a UNIX request only Unix-family records. */
  lemma SearchPlatformFamily(ctx: Context, lib: PlatformLib, entries: seq<Entry>,
                             keyword: Option<string>, q: Platform, architecture: Option<Architecture>,
                             image: MachineImage)
    requires q != Unknown
    requires image in SearchResult(Some(ctx), lib, Some(entries), keyword, Some(q), architecture).value
    ensures image.platform != Unknown
    ensures lib.isWindows(q) ==> lib.isWindows(image.platform)
    ensures q == Unix && !lib.isWindows(q) ==> lib.isUnix(image.platform)
  {
    SearchMembers(ctx, lib, entries, keyword, Some(q), architecture, image);
  }

  /** A record found by keyword has the keyword at some position of its name,
      description or id. */
  lemma SearchKeywordOccurs(ctx: Context, lib: PlatformLib, entries: seq<Entry>, keyword: string,
                            platform: Option<Platform>, architecture: Option<Architecture>, image: MachineImage)
    requires image in SearchResult(Some(ctx), lib, Some(entries), Some(keyword), platform, architecture).value
    ensures (exists i :: 0 <= i <= |image.name| - |keyword| && OccursAt(image.name, keyword, i)) ||
            (exists i :: 0 <= i <= |image.description| - |keyword| && OccursAt(image.description, keyword, i)) ||
            (exists i :: 0 <= i <= |image.id| - |keyword| && OccursAt(image.id, keyword, i))
  {
    SearchMembers(ctx, lib, entries, Some(keyword), platform, architecture, image);
    ContainsOccurs(image.name, keyword);
    ContainsOccurs(image.description, keyword);
    ContainsOccurs(image.id, keyword);
  }

  // ---------------------------------------------------------------------------
  // Properties: remove
  // ---------------------------------------------------------------------------

  /** remove issues a request exactly when a visible record has the id; the
      request deletes that id on the caller's account, and its body gives
      back the name of the first such record. */
  lemma RemovalDeletesVisibleImage(ctx: Context, lib: PlatformLib, entries: seq<Entry>, id: string)
    ensures Removal(Some(ctx), lib, Some(entries), id).Ok? <==>
            exists image :: image in Catalog(ctx, lib, entries) &&
                            Owned(Some(VisibleAccounts(ctx)), image.ownerId) && image.id == id
    ensures Removal(Some(ctx), lib, Some(entries), id).Err? ==>
            Removal(Some(ctx), lib, Some(entries), id) == Err(CloudFault("No such machine image: " + id))
    ensures var r := Removal(Some(ctx), lib, Some(entries), id);
            r.Ok? ==>
            && r.value.verb == "DELETE" && r.value.account == ctx.accountNumber
            && r.value.path == IMAGES + "/" + id
            && var image := Lookup(Some(ctx), lib, Some(entries), id).value.value;
               image.id == id && image in Catalog(ctx, lib, entries) &&
               ('<' !in image.name ==> ParseRemoveXml(r.value.body) == Some(image.name))
  {
    LookupFinds(ctx, lib, entries, id);
    var found := Lookup(Some(ctx), lib, Some(entries), id).value;
    if found.Some? {
      ParseRemoveXmlIff(RemoveXml(found.value.name), found.value.name);
    }
  }
}
