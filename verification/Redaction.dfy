/**
 Per-field visibility: the resolution chains (internal/visibility/visibility.go) and the
 redaction of specimen views and photo lists (internal/api/redact.go).
 */
module Redaction {
  import opened Options
  import opened Authorization

  type Day = int

  datatype FieldDefaults = FieldDefaults(
    price: Option<Visibility>, acquiredFrom: Option<Visibility>, acquiredAt: Option<Visibility>,
    catalogNumber: Option<Visibility>, images: Option<Visibility>)

  /** The part of an owner row the chains read; NO_OWNER is Go's zero value. */
  datatype Owner = Owner(defaults: Option<FieldDefaults>)

  const NO_OWNER := Owner(None)

  /** `rest` stands for the columns every viewer of the specimen sees. */
  datatype Specimen = Specimen(
    id: Uuid, author: Uuid, visibility: Option<Visibility>, rest: string,
    catalogNumber: Option<string>, acquiredAt: Option<Day>, acquiredFrom: Option<string>, priceCents: Option<int>,
    tagged: bool,
    visibilityPrice: Option<Visibility>, visibilityAcquiredFrom: Option<Visibility>,
    visibilityImages: Option<Visibility>)

  datatype Photo = Photo(id: Uuid, visibility: Option<Visibility>)

  datatype SpecimenView = SpecimenView(
    id: Uuid, author: Uuid, visibility: Option<Visibility>, rest: string,
    catalogNumber: Option<string>, acquiredAt: Option<Day>, acquiredFrom: Option<string>, priceCents: Option<int>,
    tagged: Option<bool>,
    visibilityPrice: Option<Visibility>, visibilityAcquiredFrom: Option<Visibility>,
    visibilityImages: Option<Visibility>)

  // ------------------------------------------------------- resolution chains

  datatype Field = Price | AcquiredFrom | AcquiredAt | CatalogNumber | Images
  datatype Source = ImageLayer | SpecimenFieldLayer | SpecimenOverallLayer | UserDefaultLayer | SystemDefaultLayer
  datatype Resolution = Resolution(visibility: Visibility, source: Source)

  function ScalarOverride(f: Field, sp: Specimen): Option<Visibility> {
    match f
    case Price => sp.visibilityPrice
    case AcquiredFrom => sp.visibilityAcquiredFrom
    case _ => None
  }

  function OwnerDefault(f: Field, owner: Owner): Option<Visibility> {
    if owner.defaults.None? then None else
      match f
      case Price => owner.defaults.value.price
      case AcquiredFrom => owner.defaults.value.acquiredFrom
      case AcquiredAt => owner.defaults.value.acquiredAt
      case CatalogNumber => owner.defaults.value.catalogNumber
      case Images => owner.defaults.value.images
  }

  function ResolveScalar(f: Field, sp: Specimen, owner: Owner): Resolution {
    match ScalarOverride(f, sp)
    case Some(v) => Resolution(v, SpecimenFieldLayer)
    case None =>
      match OwnerDefault(f, owner)
      case Some(v) => Resolution(v, UserDefaultLayer)
      case None => Resolution(Private, SystemDefaultLayer)
  }

  /** A specimen visibility of None is Go's empty string. */
  function ResolveImage(sp: Specimen, owner: Owner, img: Photo): Resolution {
    if img.visibility.Some? then Resolution(img.visibility.value, ImageLayer)
    else if sp.visibilityImages.Some? then Resolution(sp.visibilityImages.value, SpecimenFieldLayer)
    else if sp.visibility.Some? then Resolution(sp.visibility.value, SpecimenOverallLayer)
    else
      match OwnerDefault(Images, owner)
      case Some(v) => Resolution(v, UserDefaultLayer)
      case None => Resolution(Private, SystemDefaultLayer)
  }

  /** The layers of a chain, most specific first; the system default always answers. */
  type Layers = seq<(Source, Option<Visibility>)>

  function ScalarLayers(f: Field, sp: Specimen, owner: Owner): Layers {
    [(SpecimenFieldLayer, ScalarOverride(f, sp)), (UserDefaultLayer, OwnerDefault(f, owner)), (SystemDefaultLayer, Some(Private))]
  }

  function ImageLayers(sp: Specimen, owner: Owner, img: Photo): Layers {
    [(ImageLayer, img.visibility), (SpecimenFieldLayer, sp.visibilityImages), (SpecimenOverallLayer, sp.visibility),
     (UserDefaultLayer, OwnerDefault(Images, owner)), (SystemDefaultLayer, Some(Private))]
  }

  /** Layer i answers, and none before it does. */
  ghost predicate AnsweredBy(layers: Layers, i: nat, r: Resolution) {
    i < |layers| && layers[i] == (r.source, Some(r.visibility)) && forall j :: 0 <= j < i ==> layers[j].1 == None
  }

  lemma FirstSetLayerDecides(layers: Layers, i: nat, r: Resolution, i': nat, r': Resolution)
    requires AnsweredBy(layers, i, r) && AnsweredBy(layers, i', r')
    ensures r == r'
  {}

  lemma ScalarAnswered(f: Field, sp: Specimen, owner: Owner) returns (i: nat)
    ensures AnsweredBy(ScalarLayers(f, sp, owner), i, ResolveScalar(f, sp, owner))
  {
    i := if ScalarOverride(f, sp).Some? then 0 else if OwnerDefault(f, owner).Some? then 1 else 2;
  }

  lemma ImageAnswered(sp: Specimen, owner: Owner, img: Photo) returns (i: nat)
    ensures AnsweredBy(ImageLayers(sp, owner, img), i, ResolveImage(sp, owner, img))
  {
    i := if img.visibility.Some? then 0
         else if sp.visibilityImages.Some? then 1
         else if sp.visibility.Some? then 2
         else if OwnerDefault(Images, owner).Some? then 3 else 4;
  }

  /** A chain resolves to exactly the answer of its first set layer, and names that layer as the source. */
  lemma ResolutionIsFirstSetLayer(f: Field, sp: Specimen, owner: Owner, img: Photo, r: Resolution)
    ensures r == ResolveScalar(f, sp, owner) <==> exists i :: AnsweredBy(ScalarLayers(f, sp, owner), i, r)
    ensures r == ResolveImage(sp, owner, img) <==> exists i :: AnsweredBy(ImageLayers(sp, owner, img), i, r)
  {
    var i := ScalarAnswered(f, sp, owner);
    var j := ImageAnswered(sp, owner, img);
    if k :| AnsweredBy(ScalarLayers(f, sp, owner), k, r) {
      FirstSetLayerDecides(ScalarLayers(f, sp, owner), i, ResolveScalar(f, sp, owner), k, r);
    }
    if k :| AnsweredBy(ImageLayers(sp, owner, img), k, r) {
      FirstSetLayerDecides(ImageLayers(sp, owner, img), j, ResolveImage(sp, owner, img), k, r);
    }
  }

  // ---------------------------------------------------------- who sees a field

  /** The request: the guard, the share table and the caller. */
  datatype Request = Request(guard: Option<Enforcer>, shares: set<Share>, caller: Caller)

  function FieldResource(sp: Specimen, v: Visibility): Resource {
    Resource(Specimens, Some(sp.id), Some(v), Some(sp.author))
  }

  predicate CanSeeField(q: Request, sp: Specimen, v: Visibility) {
    || q.guard.None?
    || v == Public || v == Unlisted
    || Enforce(q.guard.value, q.shares, SubjectOf(q.caller), FieldResource(sp, v), VIEW) == Allowed
  }

  predicate CanSee(q: Request, sp: Specimen, owner: Owner, f: Field) {
    CanSeeField(q, sp, ResolveScalar(f, sp, owner).visibility)
  }

  predicate CanSeePhoto(q: Request, sp: Specimen, owner: Owner, img: Photo) {
    CanSeeField(q, sp, ResolveImage(sp, owner, img).visibility)
  }

  function FullView(sp: Specimen): SpecimenView {
    SpecimenView(sp.id, sp.author, sp.visibility, sp.rest, sp.catalogNumber, sp.acquiredAt, sp.acquiredFrom,
                 sp.priceCents, Some(sp.tagged), sp.visibilityPrice, sp.visibilityAcquiredFrom, sp.visibilityImages)
  }

  function Keep<T>(b: bool, x: Option<T>): Option<T> {
    if b then x else None
  }

  function RedactedView(q: Request, sp: Specimen, owner: Owner): SpecimenView {
    FullView(sp).(
      priceCents := Keep(CanSee(q, sp, owner, Price), sp.priceCents),
      acquiredFrom := Keep(CanSee(q, sp, owner, AcquiredFrom), sp.acquiredFrom),
      acquiredAt := Keep(CanSee(q, sp, owner, AcquiredAt), sp.acquiredAt),
      catalogNumber := Keep(CanSee(q, sp, owner, CatalogNumber), sp.catalogNumber),
      tagged := Keep(CanSeeField(q, sp, Private), Some(sp.tagged)))
  }

  function VisiblePhotos(q: Request, sp: Specimen, owner: Owner, photos: seq<Photo>): seq<Photo> {
    if photos == [] then [] else
      (if CanSeePhoto(q, sp, owner, photos[0]) then [photos[0]] else []) + VisiblePhotos(q, sp, owner, photos[1..])
  }

  // ------------------------------------------- which column answers for which field

  const NO_DEFAULTS := FieldDefaults(None, None, None, None, None)

  function DefaultsOf(owner: Owner): FieldDefaults {
    if owner.defaults.Some? then owner.defaults.value else NO_DEFAULTS
  }

  /** What a default says, and what is said where there is none. */
  function OrPrivate(v: Option<Visibility>): Visibility {
    if v.Some? then v.value else Private
  }

  /** Price and source follow their own column, else the owner's default of the same name, else private. */
  lemma OverridesAnswer(q: Request, sp: Specimen, owner: Owner)
    ensures sp.visibilityPrice.Some? ==> CanSee(q, sp, owner, Price) == CanSeeField(q, sp, sp.visibilityPrice.value)
    ensures sp.visibilityPrice.None? ==> CanSee(q, sp, owner, Price) == CanSeeField(q, sp, OrPrivate(DefaultsOf(owner).price))
    ensures sp.visibilityAcquiredFrom.Some? ==>
              CanSee(q, sp, owner, AcquiredFrom) == CanSeeField(q, sp, sp.visibilityAcquiredFrom.value)
    ensures sp.visibilityAcquiredFrom.None? ==>
              CanSee(q, sp, owner, AcquiredFrom) == CanSeeField(q, sp, OrPrivate(DefaultsOf(owner).acquiredFrom))
  {}

  /** Date and catalog number have no column of their own. */
  lemma DefaultsAnswer(q: Request, sp: Specimen, owner: Owner)
    ensures CanSee(q, sp, owner, AcquiredAt) == CanSeeField(q, sp, OrPrivate(DefaultsOf(owner).acquiredAt))
    ensures CanSee(q, sp, owner, CatalogNumber) == CanSeeField(q, sp, OrPrivate(DefaultsOf(owner).catalogNumber))
  {}

  /** A photo follows its own column, the specimen's image column, the specimen, the owner's image default, or is private. */
  lemma ImagesAnswer(q: Request, sp: Specimen, owner: Owner, img: Photo)
    ensures img.visibility.Some? ==> CanSeePhoto(q, sp, owner, img) == CanSeeField(q, sp, img.visibility.value)
    ensures img.visibility.None? && sp.visibilityImages.Some? ==>
              CanSeePhoto(q, sp, owner, img) == CanSeeField(q, sp, sp.visibilityImages.value)
    ensures img.visibility.None? && sp.visibilityImages.None? && sp.visibility.Some? ==>
              CanSeePhoto(q, sp, owner, img) == CanSeeField(q, sp, sp.visibility.value)
    ensures img.visibility.None? && sp.visibilityImages.None? && sp.visibility.None? ==>
              CanSeePhoto(q, sp, owner, img) == CanSeeField(q, sp, OrPrivate(DefaultsOf(owner).images))
  {}

  /** A view shows the specimen's own columns, and a redactable one exactly to those who may see it. */
  lemma ViewColumns(q: Request, sp: Specimen, owner: Owner)
    ensures var v := RedactedView(q, sp, owner);
            && v.id == sp.id && v.author == sp.author && v.visibility == sp.visibility && v.rest == sp.rest
            && v.visibilityPrice == sp.visibilityPrice && v.visibilityAcquiredFrom == sp.visibilityAcquiredFrom
            && v.visibilityImages == sp.visibilityImages
            && (if CanSee(q, sp, owner, Price) then v.priceCents == sp.priceCents else v.priceCents == None)
            && (if CanSee(q, sp, owner, AcquiredFrom) then v.acquiredFrom == sp.acquiredFrom else v.acquiredFrom == None)
            && (if CanSee(q, sp, owner, AcquiredAt) then v.acquiredAt == sp.acquiredAt else v.acquiredAt == None)
            && (if CanSee(q, sp, owner, CatalogNumber) then v.catalogNumber == sp.catalogNumber else v.catalogNumber == None)
            && (if CanSeeField(q, sp, Private) then v.tagged == Some(sp.tagged) else v.tagged == None)
  {}

  /** What is marked private, or left without any mark, is hidden from whoever may not see private fields. */
  lemma PrivateIsHidden(q: Request, sp: Specimen, owner: Owner)
    requires !CanSeeField(q, sp, Private)
    ensures sp.visibilityPrice == Some(Private) ==> RedactedView(q, sp, owner).priceCents == None
    ensures sp.visibilityAcquiredFrom == Some(Private) ==> RedactedView(q, sp, owner).acquiredFrom == None
    ensures owner.defaults == None ==>
              RedactedView(q, sp, owner).acquiredAt == None && RedactedView(q, sp, owner).catalogNumber == None
    ensures RedactedView(q, sp, owner).tagged == None
  {
    OverridesAnswer(q, sp, owner);
    DefaultsAnswer(q, sp, owner);
  }

  /** What is marked public is shown to everybody. */
  lemma PublicIsShown(q: Request, sp: Specimen, owner: Owner)
    ensures sp.visibilityPrice == Some(Public) ==> RedactedView(q, sp, owner).priceCents == sp.priceCents
    ensures sp.visibilityAcquiredFrom == Some(Public) ==> RedactedView(q, sp, owner).acquiredFrom == sp.acquiredFrom
  {
    OverridesAnswer(q, sp, owner);
  }

  /** shown consists of the photos at these places, which rise and are exactly the visible ones from k on. */
  ghost predicate ShownPlaces(q: Request, sp: Specimen, owner: Owner, photos: seq<Photo>, k: nat, shown: seq<Photo>, places: seq<nat>) {
    && |places| == |shown|
    && (forall i :: 0 <= i < |places| ==> k <= places[i] < |photos| && shown[i] == photos[places[i]])
    && (forall i, j :: 0 <= i < j < |places| ==> places[i] < places[j])
    && (forall p: nat :: p in places <==> k <= p < |photos| && CanSeePhoto(q, sp, owner, photos[p]))
  }

  lemma PlaceShown(q: Request, sp: Specimen, owner: Owner, photos: seq<Photo>, k: nat, shown: seq<Photo>, places: seq<nat>)
    requires k < |photos| && ShownPlaces(q, sp, owner, photos, k + 1, shown, places)
    ensures CanSeePhoto(q, sp, owner, photos[k]) ==> ShownPlaces(q, sp, owner, photos, k, [photos[k]] + shown, [k] + places)
    ensures !CanSeePhoto(q, sp, owner, photos[k]) ==> ShownPlaces(q, sp, owner, photos, k, shown, places)
  {}

  lemma {:induction false} VisibleFrom(q: Request, sp: Specimen, owner: Owner, photos: seq<Photo>, k: nat) returns (places: seq<nat>)
    requires k <= |photos|
    ensures ShownPlaces(q, sp, owner, photos, k, VisiblePhotos(q, sp, owner, photos[k..]), places)
    decreases |photos| - k
  {
    places := [];
    if k < |photos| {
      places := VisibleFrom(q, sp, owner, photos, k + 1);
      assert photos[k..][1..] == photos[k + 1..];
      PlaceShown(q, sp, owner, photos, k, VisiblePhotos(q, sp, owner, photos[k + 1..]), places);
      if CanSeePhoto(q, sp, owner, photos[k]) { places := [k] + places; }
    }
  }

  /** The photos left are exactly the visible ones, in order, none lost and none twice. */
  lemma VisiblePlaces(q: Request, sp: Specimen, owner: Owner, photos: seq<Photo>) returns (places: seq<nat>)
    ensures ShownPlaces(q, sp, owner, photos, 0, VisiblePhotos(q, sp, owner, photos), places)
  {
    places := VisibleFrom(q, sp, owner, photos, 0);
    assert photos[0..] == photos;
  }

  // -------------------------------------------------------------- the redactor

  /** The users repository for one request: absent, or a lookup that may miss. */
  datatype UserRepo = NoRepo | Repo(getById: Uuid -> Option<Owner>)

  /** The owner as loaded afresh. */
  function OwnerOf(users: UserRepo, author: Uuid): Owner {
    if users.NoRepo? || author == NIL_ID then NO_OWNER else
      match users.getById(author)
      case None => NO_OWNER
      case Some(o) => o
  }

  class Redactor {
    const users: UserRepo
    var owners: map<Uuid, Owner>

    /** The memo only ever holds what the repository would answer. */
    ghost predicate Valid()
      reads this
    {
      forall a :: a in owners ==> users.Repo? && a != NIL_ID && users.getById(a) == Some(owners[a])
    }

    constructor (users: UserRepo)
      ensures Valid() && this.users == users && owners == map[]
    {
      this.users := users;
      owners := map[];
    }

    method LoadOwner(author: Uuid) returns (o: Owner)
      requires Valid()
      modifies this
      ensures Valid() && o == OwnerOf(users, author)
      ensures users.Repo? && author != NIL_ID ==> o == match users.getById(author) case Some(found) => found case None => NO_OWNER
      ensures users.NoRepo? || author == NIL_ID ==> o.defaults == None
    {
      if users.NoRepo? || author == NIL_ID { return NO_OWNER; }
      if author in owners { return owners[author]; }
      var u := users.getById(author);
      if u.None? { return NO_OWNER; }
      owners := owners[author := u.value];
      return u.value;
    }

    method RedactSpecimen(q: Request, sp: Specimen) returns (view: SpecimenView)
      requires Valid()
      modifies this
      ensures Valid() && view == RedactedView(q, sp, OwnerOf(users, sp.author))
    {
      view := FullView(sp);
      if q.guard.None? { return; }
      var owner := LoadOwner(sp.author);
      if !CanSeeField(q, sp, ResolveScalar(Price, sp, owner).visibility) {
        view := view.(priceCents := None);
      }
      if !CanSeeField(q, sp, ResolveScalar(AcquiredFrom, sp, owner).visibility) {
        view := view.(acquiredFrom := None);
      }
      if !CanSeeField(q, sp, ResolveScalar(AcquiredAt, sp, owner).visibility) {
        view := view.(acquiredAt := None);
      }
      if !CanSeeField(q, sp, ResolveScalar(CatalogNumber, sp, owner).visibility) {
        view := view.(catalogNumber := None);
      }
      if !CanSeeField(q, sp, Private) {
        view := view.(tagged := None);
      }
    }

    /** A list page: the memo gives the page that reloading the owner for each row would give. */
    method RedactPage(q: Request, page: seq<Specimen>) returns (views: seq<SpecimenView>)
      requires Valid()
      modifies this
      ensures Valid() && |views| == |page|
      ensures forall i :: 0 <= i < |page| ==> views[i] == RedactedView(q, page[i], OwnerOf(users, page[i].author))
    {
      views := [];
      for i := 0 to |page|
        invariant Valid() && |views| == i
        invariant forall j :: 0 <= j < i ==> views[j] == RedactedView(q, page[j], OwnerOf(users, page[j].author))
      {
        var view := RedactSpecimen(q, page[i]);
        views := views + [view];
      }
    }

    method FilterPhotos(q: Request, sp: Specimen, photos: seq<Photo>) returns (out: seq<Photo>)
      requires Valid()
      modifies this
      ensures Valid() && out == VisiblePhotos(q, sp, OwnerOf(users, sp.author), photos)
    {
      var owner := OwnerOf(users, sp.author);
      if q.guard.None? {
        AllVisible(q, sp, owner, photos);
        return photos;
      }
      owner := LoadOwner(sp.author);
      out := [];
      for i := 0 to |photos|
        invariant Valid()
        invariant out + VisiblePhotos(q, sp, owner, photos[i..]) == VisiblePhotos(q, sp, owner, photos)
      {
        assert photos[i..][1..] == photos[i + 1..];
        if CanSeePhoto(q, sp, owner, photos[i]) {
          out := out + [photos[i]];
        }
      }
    }
  }

  lemma {:induction false} AllVisible(q: Request, sp: Specimen, owner: Owner, photos: seq<Photo>)
    requires forall i :: 0 <= i < |photos| ==> CanSeePhoto(q, sp, owner, photos[i])
    ensures VisiblePhotos(q, sp, owner, photos) == photos
  {
    if photos != [] {
      AllVisible(q, sp, owner, photos[1..]);
      assert [photos[0]] + photos[1..] == photos;
    }
  }

  // ----------------------------------------------------------- what it promises

  /** Equal in everything that is not redactable. */
  predicate SameShell(a: Specimen, b: Specimen) {
    a.(catalogNumber := None, acquiredAt := None, acquiredFrom := None, priceCents := None, tagged := false)
    == b.(catalogNumber := None, acquiredAt := None, acquiredFrom := None, priceCents := None, tagged := false)
  }

  /** Equal in every redactable field the caller may see on a. */
  ghost predicate AgreeWhereSeen(q: Request, owner: Owner, a: Specimen, b: Specimen) {
    && (CanSee(q, a, owner, Price) ==> a.priceCents == b.priceCents)
    && (CanSee(q, a, owner, AcquiredFrom) ==> a.acquiredFrom == b.acquiredFrom)
    && (CanSee(q, a, owner, AcquiredAt) ==> a.acquiredAt == b.acquiredAt)
    && (CanSee(q, a, owner, CatalogNumber) ==> a.catalogNumber == b.catalogNumber)
    && (CanSeeField(q, a, Private) ==> a.tagged == b.tagged)
  }

  lemma SameShellSameSight(q: Request, owner: Owner, a: Specimen, b: Specimen, f: Field)
    requires SameShell(a, b)
    ensures CanSee(q, a, owner, f) == CanSee(q, b, owner, f)
    ensures CanSeeField(q, a, Private) == CanSeeField(q, b, Private)
    ensures ScalarOverride(f, a) == ScalarOverride(f, b)
  {
    SameShellColumns(a, b);
    assert FieldResource(a, Private) == FieldResource(b, Private);
    assert FieldResource(a, ResolveScalar(f, a, owner).visibility) == FieldResource(b, ResolveScalar(f, b, owner).visibility);
  }

  lemma SameShellColumns(a: Specimen, b: Specimen)
    requires SameShell(a, b)
    ensures a.id == b.id && a.author == b.author && a.visibility == b.visibility && a.rest == b.rest
    ensures a.visibilityPrice == b.visibilityPrice && a.visibilityAcquiredFrom == b.visibilityAcquiredFrom
    ensures a.visibilityImages == b.visibilityImages
  {
    var blankA := a.(catalogNumber := None, acquiredAt := None, acquiredFrom := None, priceCents := None, tagged := false);
    var blankB := b.(catalogNumber := None, acquiredAt := None, acquiredFrom := None, priceCents := None, tagged := false);
    assert blankA.id == blankB.id && blankA.rest == blankB.rest;
  }

  /**
   Non-interference, both ways: two specimens that differ in redactable fields only look the
   same to a caller exactly when they agree on the fields that caller may see.
   */
  lemma ViewsShowExactlyWhatMayBeSeen(q: Request, owner: Owner, a: Specimen, b: Specimen)
    requires SameShell(a, b)
    ensures RedactedView(q, a, owner) == RedactedView(q, b, owner) <==> AgreeWhereSeen(q, owner, a, b)
  {
    SameShellColumns(a, b);
    SameShellSameSight(q, owner, a, b, Price);
    SameShellSameSight(q, owner, a, b, AcquiredFrom);
    SameShellSameSight(q, owner, a, b, AcquiredAt);
    SameShellSameSight(q, owner, a, b, CatalogNumber);
    var va, vb := RedactedView(q, a, owner), RedactedView(q, b, owner);
    if AgreeWhereSeen(q, owner, a, b) {
      assert va.priceCents == vb.priceCents && va.acquiredFrom == vb.acquiredFrom && va.acquiredAt == vb.acquiredAt;
      assert va.catalogNumber == vb.catalogNumber && va.tagged == vb.tagged;
    }
  }

  /** Under the seeded policies a private field is seen by admins, the owner and those it is shared with. */
  lemma PrivateFieldSeenBy(q: Request, sp: Specimen)
    requires q.guard == Some(SEEDED)
    ensures CanSeeField(q, sp, Private) <==>
            || Admin in q.caller.roles
            || (q.caller.id != NIL_ID && (sp.author == q.caller.id || Share(Specimens, sp.id, q.caller.id) in q.shares))
  {
    CheckView(q.shares, q.caller, FieldResource(sp, Private));
  }

  function WithRoles(q: Request, roles: seq<Role>): Request {
    q.(caller := q.caller.(roles := roles))
  }

  /** A caller with neither identity nor roles stops being anonymous when given some other role. */
  predicate LosesAnonymous(u: Caller, roles: seq<Role>) {
    u.id == NIL_ID && u.roles == [] && roles != [] && Anonymous !in roles
  }

  /** Whatever the policy table, shares, specimen or field, more roles never hide it from this caller. */
  ghost predicate NeverHides(u: Caller, roles: seq<Role>) {
    forall guard: Option<Enforcer>, shares: set<Share>, sp: Specimen, v: Visibility ::
      CanSeeField(Request(guard, shares, u), sp, v) ==> CanSeeField(WithRoles(Request(guard, shares, u), roles), sp, v)
  }

  lemma MoreRolesNeverHide(q: Request, sp: Specimen, v: Visibility, roles: seq<Role>)
    requires (forall r :: r in q.caller.roles ==> r in roles) && !LosesAnonymous(q.caller, roles)
    requires CanSeeField(q, sp, v)
    ensures CanSeeField(WithRoles(q, roles), sp, v)
  {
    var s, s' := SubjectOf(q.caller), SubjectOf(WithRoles(q, roles).caller);
    if q.guard.Some? && v == Private {
      var e, res := q.guard.value, FieldResource(sp, v);
      var role :| role in s.roles && EnforceRole(e, q.shares, role, s.id, res, VIEW);
      assert role in s'.roles && s'.id == s.id;
    }
  }

  /** The exception is real: a policy for anonymous callers may show such a caller a private field. */
  lemma LosingAnonymousHides(u: Caller, roles: seq<Role>, shares: set<Share>, sp: Specimen)
    requires LosesAnonymous(u, roles)
    ensures var q := Request(Some(Enforcer([Policy(Anonymous, AnyType, AnyInstance, "*")], [])), shares, u);
            CanSeeField(q, sp, Private) && !CanSeeField(WithRoles(q, roles), sp, Private)
  {
    var p := Policy(Anonymous, AnyType, AnyInstance, "*");
    var e := Enforcer([p], []);
    var res := FieldResource(sp, Private);
    assert SubjectOf(u).roles == [Anonymous];
    assert p in e.policies && Matches(e, shares, Anonymous, None, res, VIEW, p);
    assert EnforceRole(e, shares, Anonymous, None, res, VIEW);
    assert Anonymous in SubjectOf(u).roles;
  }

  lemma MoreRolesNeverHideIff(u: Caller, roles: seq<Role>)
    requires forall r :: r in u.roles ==> r in roles
    ensures NeverHides(u, roles) <==> !LosesAnonymous(u, roles)
  {
    if LosesAnonymous(u, roles) {
      var sp := Specimen(1, 1, None, "", None, None, None, None, false, None, None, None);
      LosingAnonymousHides(u, roles, {}, sp);
    } else {
      forall guard: Option<Enforcer>, shares: set<Share>, sp: Specimen, v: Visibility
        | CanSeeField(Request(guard, shares, u), sp, v)
        ensures CanSeeField(WithRoles(Request(guard, shares, u), roles), sp, v)
      {
        MoreRolesNeverHide(Request(guard, shares, u), sp, v, roles);
      }
    }
  }

  /** Under the seeded policies there is no exception. */
  lemma SeededRolesNeverHide(q: Request, sp: Specimen, v: Visibility, roles: seq<Role>)
    requires q.guard == Some(SEEDED) && forall r :: r in q.caller.roles ==> r in roles
    requires CanSeeField(q, sp, v)
    ensures CanSeeField(WithRoles(q, roles), sp, v)
  {
    if v == Private {
      PrivateFieldSeenBy(q, sp);
      PrivateFieldSeenBy(WithRoles(q, roles), sp);
    }
  }

  /** The owner and every admin get the full view and all photos, whatever is marked private. */
  lemma OwnerAndAdminSeeAll(q: Request, sp: Specimen, owner: Owner, photos: seq<Photo>)
    requires q.guard == Some(SEEDED)
    requires Admin in q.caller.roles || (q.caller.id != NIL_ID && sp.author == q.caller.id)
    ensures RedactedView(q, sp, owner) == FullView(sp)
    ensures VisiblePhotos(q, sp, owner, photos) == photos
  {
    PrivateFieldSeenBy(q, sp);
    AllVisible(q, sp, owner, photos);
  }
}
