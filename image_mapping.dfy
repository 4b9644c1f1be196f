/** toImage: one OSImage element of the catalog becomes an image record, or
    nothing when the element carries no image name. */
module ImageMapping {
  import opened Wrappers
  import opened Text
  import opened ImageTypes

  // ---------------------------------------------------------------------------
  // What a single child contributes
  // ---------------------------------------------------------------------------

  /** The child is one toImage reads for field: not a text node, named field
      (case ignored) and with a child of its own. */
  predicate Selects(c: Child, field: string) {
    !c.isText && EqualsIgnoreCase(c.nodeName, field) && c.hasChildren
  }

  /** The trimmed text a child gives the field it is named after. */
  function FieldText(field: string): Child -> Option<string> {
    c => if Selects(c, field) then Some(Trim(c.firstText)) else None
  }

  /** The owner id a category value stands for, case ignored; None for any
      other value, which leaves the owner as it was. */
  function CategoryOwner(category: string, account: string): Option<string> {
    if EqualsIgnoreCase("user", category) then Some(account)
    else if EqualsIgnoreCase("microsoft", category) then Some(MICROSOFT)
    else if EqualsIgnoreCase("partner", category) then Some(PUBLIC)
    else if EqualsIgnoreCase("Canonical", category) then Some(CANONICAL)
    else None
  }

  function CategoryOf(account: string): Child -> Option<string> {
    c => if Selects(c, "category") then CategoryOwner(Trim(c.firstText), account) else None
  }

  /** The platform an os value names, case ignored; None for any other value. */
  function OsPlatform(os: string): Option<Platform> {
    if EqualsIgnoreCase(os, "windows") then Some(Windows)
    else if EqualsIgnoreCase(os, "linux") then Some(Unix)
    else None
  }

  function OsOf(c: Child): Option<Platform> {
    if Selects(c, "os") then OsPlatform(Trim(c.firstText)) else None
  }

  /** The value of the last child that gives one: a later child overrides an
      earlier one, and a child that gives nothing changes nothing. */
  function LastValue<T>(cs: seq<Child>, value: Child -> Option<T>): Option<T> {
    if cs == [] then None
    else if value(cs[|cs| - 1]).Some? then value(cs[|cs| - 1])
    else LastValue(cs[..|cs| - 1], value)
  }

  /** A field is left unset exactly when no child gives it a value; otherwise
      it holds the value of a child after which no child gives one. */
  lemma {:induction false} LastValueSpec<T>(cs: seq<Child>, value: Child -> Option<T>)
    ensures LastValue(cs, value).None? <==> forall k :: 0 <= k < |cs| ==> value(cs[k]).None?
    ensures LastValue(cs, value).Some? ==>
            exists k :: 0 <= k < |cs| && value(cs[k]) == LastValue(cs, value) &&
                        forall j :: k < j < |cs| ==> value(cs[j]).None?
    decreases |cs|
  {
    if cs != [] && value(cs[|cs| - 1]).None? {
      var init := cs[..|cs| - 1];
      LastValueSpec(init, value);
      assert forall k :: 0 <= k < |init| ==> init[k] == cs[k];
      if LastValue(init, value).Some? {
        var k :| 0 <= k < |init| && value(init[k]) == LastValue(init, value) &&
                 forall j :: k < j < |init| ==> value(init[j]).None?;
        assert value(cs[k]) == LastValue(cs, value);
      }
    }
  }

  // ---------------------------------------------------------------------------
  // The record an entry maps to
  // ---------------------------------------------------------------------------

  /** The fields the loop over the children sets (None: left null). */
  datatype Fields = Fields(
    id: Option<string>,
    name: Option<string>,
    description: Option<string>,
    mediaLink: Option<string>,
    ownerId: string,
    platform: Option<Platform>)

  /** The fields once the children cs have been read; the owner starts as MICROSOFT. */
  function ReadFields(cs: seq<Child>, account: string): Fields {
    Fields(
      LastValue(cs, FieldText("name")),
      LastValue(cs, FieldText("label")),
      LastValue(cs, FieldText("description")),
      LastValue(cs, FieldText("medialink")),
      LastValue(cs, CategoryOf(account)).GetOr(MICROSOFT),
      LastValue(cs, OsOf))
  }

  /** The free text the platform and software heuristics look at. */
  function Descriptor(id: string, name: string, description: string): string {
    id + " " + name + " " + description
  }

  /** An explicit WINDOWS stays; an explicit UNIX gives way to a guess that is
      not UNKNOWN; no explicit platform takes the guess, whatever it is. */
  function RefinedPlatform(lib: PlatformLib, explicit: Option<Platform>, descriptor: string): Platform {
    match explicit
    case None => lib.guess(descriptor)
    case Some(p) =>
      if p == Unix && lib.guess(descriptor) != Unknown then lib.guess(descriptor) else p
  }

  function SoftwareOf(descriptor: string): string {
    if Contains(descriptor, "SQL Server") then "SQL Server" else ""
  }

  /** The steps after the loop: reject a record without id, apply the name and
      description defaults, then the platform and software heuristics. */
  function Complete(f: Fields, ctx: Context, lib: PlatformLib): Option<MachineImage> {
    match f.id
    case None => None
    case Some(id) =>
      var name := f.name.GetOr(id);
      var description := f.description.GetOr(name);
      var descriptor := Descriptor(id, name, description);
      Some(MachineImage(id, name, description, f.ownerId, ctx.regionId, Active, I64,
                        RefinedPlatform(lib, f.platform, descriptor), f.mediaLink,
                        SoftwareOf(descriptor), Storage, map[]))
  }

  /** The record toImage builds from an entry, or None where it returns null. */
  function MapEntry(ctx: Context, lib: PlatformLib, entry: Entry): Option<MachineImage> {
    Complete(ReadFields(entry, ctx.accountNumber), ctx, lib)
  }

  /** toImage: sets the fixed defaults, walks the children (later ones
      overwrite earlier ones), then completes or rejects the record. */
  method ToImage(ctx: Context, lib: PlatformLib, entry: Entry) returns (image: Option<MachineImage>)
    ensures image == MapEntry(ctx, lib, entry)
  {
    var ownerId := MICROSOFT;
    var id: Option<string> := None;
    var name: Option<string> := None;
    var description: Option<string> := None;
    var mediaLink: Option<string> := None;
    var platform: Option<Platform> := None;
    for i := 0 to |entry|
      invariant Fields(id, name, description, mediaLink, ownerId, platform) ==
                ReadFields(entry[..i], ctx.accountNumber)
    {
      ReadFieldsStep(entry, i, ctx.accountNumber);
      var attribute := entry[i];
      if attribute.isText {
        continue;
      }
      var nodeName := attribute.nodeName;
      if EqualsIgnoreCase(nodeName, "name") && attribute.hasChildren {
        id := Some(Trim(attribute.firstText));
      }
      if EqualsIgnoreCase(nodeName, "category") && attribute.hasChildren {
        var c := Trim(attribute.firstText);
        if EqualsIgnoreCase("user", c) {
          ownerId := ctx.accountNumber;
        } else if EqualsIgnoreCase("microsoft", c) {
          ownerId := MICROSOFT;
        } else if EqualsIgnoreCase("partner", c) {
          ownerId := PUBLIC;
        } else if EqualsIgnoreCase("Canonical", c) {
          ownerId := CANONICAL;
        }
      } else if EqualsIgnoreCase(nodeName, "label") && attribute.hasChildren {
        name := Some(Trim(attribute.firstText));
      } else if EqualsIgnoreCase(nodeName, "description") && attribute.hasChildren {
        description := Some(Trim(attribute.firstText));
      } else if EqualsIgnoreCase(nodeName, "medialink") && attribute.hasChildren {
        mediaLink := Some(Trim(attribute.firstText));
      } else if EqualsIgnoreCase(nodeName, "os") && attribute.hasChildren {
        var os := Trim(attribute.firstText);
        if EqualsIgnoreCase(os, "windows") {
          platform := Some(Windows);
        } else if EqualsIgnoreCase(os, "linux") {
          platform := Some(Unix);
        }
      }
    }
    assert entry[..|entry|] == entry;
    image := Complete(Fields(id, name, description, mediaLink, ownerId, platform), ctx, lib);
  }

  /** One more child: each field takes the child's value if it gives one. */
  lemma ReadFieldsStep(cs: seq<Child>, i: nat, account: string)
    requires i < |cs|
    ensures var before, after, c := ReadFields(cs[..i], account), ReadFields(cs[..i + 1], account), cs[i];
            after == Fields(
              if FieldText("name")(c).Some? then FieldText("name")(c) else before.id,
              if FieldText("label")(c).Some? then FieldText("label")(c) else before.name,
              if FieldText("description")(c).Some? then FieldText("description")(c) else before.description,
              if FieldText("medialink")(c).Some? then FieldText("medialink")(c) else before.mediaLink,
              if CategoryOf(account)(c).Some? then CategoryOf(account)(c).value else before.ownerId,
              if OsOf(c).Some? then OsOf(c) else before.platform)
  {
    assert cs[..i + 1][..i] == cs[..i];
  }

  // ---------------------------------------------------------------------------
  // Properties of the mapping
  // ---------------------------------------------------------------------------

  /** An entry yields a record exactly when it has a name child. */
  lemma NoNameNoRecord(ctx: Context, lib: PlatformLib, entry: Entry)
    ensures MapEntry(ctx, lib, entry).None? <==>
            forall k :: 0 <= k < |entry| ==> !Selects(entry[k], "name")
  {
    var v := FieldText("name");
    LastValueSpec(entry, v);
    assert forall k :: 0 <= k < |entry| ==> (v(entry[k]).None? <==> !Selects(entry[k], "name"));
  }

  /** The id is the trimmed text of the last name child. */
  lemma IdIsLastName(ctx: Context, lib: PlatformLib, entry: Entry)
    requires MapEntry(ctx, lib, entry).Some?
    ensures exists k :: 0 <= k < |entry| && Selects(entry[k], "name") &&
                        MapEntry(ctx, lib, entry).value.id == Trim(entry[k].firstText) &&
                        forall j :: k < j < |entry| ==> !Selects(entry[j], "name")
  {
    var v := FieldText("name");
    LastValueSpec(entry, v);
    var k :| 0 <= k < |entry| && v(entry[k]) == LastValue(entry, v) &&
             forall j :: k < j < |entry| ==> v(entry[j]).None?;
    assert forall j :: k < j < |entry| ==> !Selects(entry[j], "name");
  }

  /** State, architecture, image type, tags and region never come from the
      payload: a record is always ACTIVE, I64, STORAGE, untagged and in the
      caller's region. */
  lemma RecordConstants(ctx: Context, lib: PlatformLib, entry: Entry)
    requires MapEntry(ctx, lib, entry).Some?
    ensures var image := MapEntry(ctx, lib, entry).value;
            image.state == Active && image.architecture == I64 && image.imageType == Storage &&
            image.tags == map[] && image.regionId == ctx.regionId
  {
  }

  /** Without a label child the name is the id; without a description child the
      description is the name. */
  lemma RecordDefaults(ctx: Context, lib: PlatformLib, entry: Entry)
    requires MapEntry(ctx, lib, entry).Some?
    ensures (forall k :: 0 <= k < |entry| ==> !Selects(entry[k], "label")) ==>
            MapEntry(ctx, lib, entry).value.name == MapEntry(ctx, lib, entry).value.id
    ensures (forall k :: 0 <= k < |entry| ==> !Selects(entry[k], "description")) ==>
            MapEntry(ctx, lib, entry).value.description == MapEntry(ctx, lib, entry).value.name
  {
    var labelOf := FieldText("label");
    var desc := FieldText("description");
    LastValueSpec(entry, labelOf);
    LastValueSpec(entry, desc);
    assert forall k :: 0 <= k < |entry| ==> (labelOf(entry[k]).None? <==> !Selects(entry[k], "label"));
    assert forall k :: 0 <= k < |entry| ==> (desc(entry[k]).None? <==> !Selects(entry[k], "description"));
  }

  lemma CategoryOwnerIsKnown(category: string, account: string)
    ensures CategoryOwner(category, account).Some? ==>
            CategoryOwner(category, account).value in {account, MICROSOFT, PUBLIC, CANONICAL}
  {
  }

  /** The owner is always one of the three sentinels or the caller's account. */
  lemma OwnerIsKnown(ctx: Context, lib: PlatformLib, entry: Entry)
    requires MapEntry(ctx, lib, entry).Some?
    ensures MapEntry(ctx, lib, entry).value.ownerId in {ctx.accountNumber, MICROSOFT, PUBLIC, CANONICAL}
  {
    var v := CategoryOf(ctx.accountNumber);
    var r := LastValue(entry, v);
    LastValueSpec(entry, v);
    assert MapEntry(ctx, lib, entry).value.ownerId == r.GetOr(MICROSOFT);
    if r.Some? {
      var k :| 0 <= k < |entry| && v(entry[k]) == r && forall j :: k < j < |entry| ==> v(entry[j]).None?;
      CategoryOwnerIsKnown(Trim(entry[k].firstText), ctx.accountNumber);
    }
  }

  /** The owner comes from the last child whose category is recognised; with no
      such child it stays MICROSOFT. */
  lemma OwnerFromLastCategory(ctx: Context, lib: PlatformLib, entry: Entry, k: nat)
    requires MapEntry(ctx, lib, entry).Some?
    requires k < |entry| && Selects(entry[k], "category")
    requires CategoryOwner(Trim(entry[k].firstText), ctx.accountNumber).Some?
    requires forall j :: k < j < |entry| ==>
               !Selects(entry[j], "category") ||
               CategoryOwner(Trim(entry[j].firstText), ctx.accountNumber).None?
    ensures MapEntry(ctx, lib, entry).value.ownerId ==
            CategoryOwner(Trim(entry[k].firstText), ctx.accountNumber).value
  {
    var v := CategoryOf(ctx.accountNumber);
    assert forall j :: k < j < |entry| ==> v(entry[j]).None?;
    LastValueAt(entry, v, k);
  }

  /** With no recognised category child the owner stays MICROSOFT. */
  lemma OwnerDefaultsToMicrosoft(ctx: Context, lib: PlatformLib, entry: Entry)
    requires MapEntry(ctx, lib, entry).Some?
    requires forall j :: 0 <= j < |entry| ==>
               !Selects(entry[j], "category") ||
               CategoryOwner(Trim(entry[j].firstText), ctx.accountNumber).None?
    ensures MapEntry(ctx, lib, entry).value.ownerId == MICROSOFT
  {
    var v := CategoryOf(ctx.accountNumber);
    LastValueSpec(entry, v);
    assert forall j :: 0 <= j < |entry| ==> v(entry[j]).None?;
  }

  /** Category values are compared ignoring case: two values that differ only in
      case stand for the same owner. */
  lemma CategoryIgnoresCase(c1: string, c2: string, account: string)
    requires EqualsIgnoreCase(c1, c2)
    ensures CategoryOwner(c1, account) == CategoryOwner(c2, account)
  {
    forall w | w in ["user", "microsoft", "partner", "Canonical"]
      ensures EqualsIgnoreCase(w, c1) <==> EqualsIgnoreCase(w, c2)
    {
      EqualsIgnoreCaseEquivalence(w, c1, c2);
      EqualsIgnoreCaseEquivalence(w, c2, c1);
      EqualsIgnoreCaseEquivalence(c1, c2, c1);
    }
  }

  /** The category table, in a few of its spellings. */
  lemma CategoryTable(account: string)
    ensures CategoryOwner("USER", account) == Some(account)
    ensures CategoryOwner("Microsoft", account) == Some(MICROSOFT)
    ensures CategoryOwner("PARTNER", account) == Some(PUBLIC)
    ensures CategoryOwner("canonical", account) == Some(CANONICAL)
    ensures CategoryOwner("public", account) == None
  {
    CategoryUser(account);
    CategoryMicrosoft(account);
    CategoryPartner(account);
    CategoryCanonical(account);
  }

  lemma CategoryUser(account: string)
    ensures CategoryOwner("USER", account) == Some(account)
  {
    assert EqualsIgnoreCase("user", "USER");
  }

  lemma CategoryMicrosoft(account: string)
    ensures CategoryOwner("Microsoft", account) == Some(MICROSOFT)
  {
    assert EqualsIgnoreCase("microsoft", "Microsoft");
  }

  lemma CategoryPartner(account: string)
    ensures CategoryOwner("PARTNER", account) == Some(PUBLIC)
  {
    assert EqualsIgnoreCase("partner", "PARTNER");
  }

  lemma CategoryCanonical(account: string)
    ensures CategoryOwner("canonical", account) == Some(CANONICAL)
  {
    assert !CharEqualsIgnoreCase("microsoft"[0], "canonical"[0]);
    assert EqualsIgnoreCase("Canonical", "canonical");
  }

  /** An explicit os of windows (any case) makes the platform WINDOWS, whatever
      the free-text guess says; linux (any case) makes it UNIX unless the guess
      names something other than UNKNOWN. */
  lemma ExplicitOs(ctx: Context, lib: PlatformLib, entry: Entry, k: nat)
    requires MapEntry(ctx, lib, entry).Some?
    requires k < |entry| && Selects(entry[k], "os") && OsPlatform(Trim(entry[k].firstText)).Some?
    requires forall j :: k < j < |entry| ==>
               !Selects(entry[j], "os") || OsPlatform(Trim(entry[j].firstText)).None?
    ensures var image := MapEntry(ctx, lib, entry).value;
            var guess := lib.guess(Descriptor(image.id, image.name, image.description));
            && (EqualsIgnoreCase(Trim(entry[k].firstText), "windows") ==> image.platform == Windows)
            && (EqualsIgnoreCase(Trim(entry[k].firstText), "linux") ==>
                  image.platform == if guess != Unknown then guess else Unix)
  {
    assert OsOf(entry[k]).Some?;
    assert forall j :: k < j < |entry| ==> OsOf(entry[j]).None?;
    LastValueAt(entry, OsOf, k);
    assert !(EqualsIgnoreCase(Trim(entry[k].firstText), "windows") &&
             EqualsIgnoreCase(Trim(entry[k].firstText), "linux"));
  }

  /** With no recognised os child the platform is the free-text guess. */
  lemma PlatformGuessed(ctx: Context, lib: PlatformLib, entry: Entry)
    requires MapEntry(ctx, lib, entry).Some?
    requires forall j :: 0 <= j < |entry| ==>
               !Selects(entry[j], "os") || OsPlatform(Trim(entry[j].firstText)).None?
    ensures var image := MapEntry(ctx, lib, entry).value;
            image.platform == lib.guess(Descriptor(image.id, image.name, image.description))
  {
    LastValueSpec(entry, OsOf);
    assert forall j :: 0 <= j < |entry| ==> OsOf(entry[j]).None?;
  }

  /** The software tag is "SQL Server" exactly when the descriptor mentions it,
      and empty otherwise. */
  lemma SoftwareTag(ctx: Context, lib: PlatformLib, entry: Entry)
    requires MapEntry(ctx, lib, entry).Some?
    ensures var image := MapEntry(ctx, lib, entry).value;
            && (image.software == "SQL Server" <==>
                Contains(Descriptor(image.id, image.name, image.description), "SQL Server"))
            && (image.software == "" || image.software == "SQL Server")
  {
  }

  /** A child that gives no field a value: a text node, an element without
      children, an unknown name, or an unrecognised category or os value. */
  predicate Inert(c: Child, account: string) {
    && FieldText("name")(c).None? && FieldText("label")(c).None?
    && FieldText("description")(c).None? && FieldText("medialink")(c).None?
    && CategoryOf(account)(c).None? && OsOf(c).None?
  }

  lemma {:induction false} LastValueSkips<T>(a: seq<Child>, c: Child, b: seq<Child>, value: Child -> Option<T>)
    requires value(c).None?
    ensures LastValue(a + [c] + b, value) == LastValue(a + b, value)
  {
    if b == [] {
      assert (a + [c] + b)[..|a| + 1 - 1] == a;
      assert a + b == a;
    } else {
      var init := b[..|b| - 1];
      LastValueSkips(a, c, init, value);
      assert (a + [c] + b)[..|a + [c] + b| - 1] == a + [c] + init;
      assert (a + b)[..|a + b| - 1] == a + init;
    }
  }

  /** The value of a child after which no child gives one is the last value. */
  lemma {:induction false} LastValueAt<T>(cs: seq<Child>, value: Child -> Option<T>, k: nat)
    requires k < |cs| && value(cs[k]).Some?
    requires forall j :: k < j < |cs| ==> value(cs[j]).None?
    ensures LastValue(cs, value) == value(cs[k])
    decreases |cs|
  {
    if k < |cs| - 1 {
      var init := cs[..|cs| - 1];
      assert init[k] == cs[k];
      assert forall j :: k < j < |init| ==> init[j] == cs[j];
      LastValueAt(init, value, k);
    }
  }

  /** An inert child can be dropped from anywhere in the entry without changing
      the record: text nodes, unknown elements and unrecognised values are
      ignored. */
  lemma InertChildIgnored(ctx: Context, lib: PlatformLib, a: Entry, c: Child, b: Entry)
    requires Inert(c, ctx.accountNumber)
    ensures MapEntry(ctx, lib, a + [c] + b) == MapEntry(ctx, lib, a + b)
  {
    LastValueSkips(a, c, b, FieldText("name"));
    LastValueSkips(a, c, b, FieldText("label"));
    LastValueSkips(a, c, b, FieldText("description"));
    LastValueSkips(a, c, b, FieldText("medialink"));
    LastValueSkips(a, c, b, CategoryOf(ctx.accountNumber));
    LastValueSkips(a, c, b, OsOf);
  }

  lemma TextNodesAreInert(c: Child, account: string)
    requires c.isText
    ensures Inert(c, account)
  {
  }

  /** A child appended after all others overrides what came before it: a
      recognised category child decides the owner, whatever the earlier ones said. */
  lemma LaterCategoryWins(ctx: Context, lib: PlatformLib, entry: Entry, c: Child)
    requires Selects(c, "category") && CategoryOwner(Trim(c.firstText), ctx.accountNumber).Some?
    requires MapEntry(ctx, lib, entry + [c]).Some?
    ensures MapEntry(ctx, lib, entry + [c]).value.ownerId ==
            CategoryOwner(Trim(c.firstText), ctx.accountNumber).value
  {
    var cs := entry + [c];
    assert cs[|cs| - 1] == c;
  }
}
