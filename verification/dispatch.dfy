/**
 * The backend dispatch facade: resolve a URI or a scheme to a registered
 * store, forward the operation to the backend, translate a backend's
 * `NotImplementedError` into the typed "not supported" errors, validate what
 * `add` returns, and the best-effort deletion and size helpers built on top.
 */
module Dispatch {
  import opened Wrappers
  import opened Errors
  import opened Registry
  import opened Metadata

  /** The caller's request context, forwarded to the backend unexamined. */
  type Context = string

  type Bytes = seq<bv8>

  /** A parsed location: the name of the store that owns it and its URI. */
  datatype Location = Location(storeName: string, uri: string)

  /** What a backend's `get` returns: the image data and its size. */
  datatype Fetched = Fetched(data: Bytes, size: int)

  /** What a backend's `add` returns: location URI, size, checksum and metadata. */
  datatype Added = Added(location: string, size: int, checksum: string, metadata: Option<MVal>)

  /** The access lists `set_acls` forwards. */
  datatype Acl = Acl(public: bool, readTenants: seq<string>, writeTenants: seq<string>)

  /**
   * The operations every store driver provides, as functions of the store
   * instance. A driver that lacks an operation returns `Err(NotImplemented)`.
   */
  datatype Backend = Backend(
    get: (Store, Location, Context) -> Result<Fetched, Error>,
    getSize: (Store, Location) -> Result<int, Error>,
    delete: (Store, Location) -> Result<(), Error>,
    add: (Store, string, Bytes, int) -> Result<Added, Error>,
    setAcls: (Store, Location, Acl) -> Result<(), Error>)

  /**
   * The store API the facade works against: the scheme map built by
   * `create_stores`, the location parser of the location module, and the drivers.
   */
  datatype StoreApi = StoreApi(registry: SchemeMap, parse: string -> Result<Location, Error>, backend: Backend)

  /** A deletion handed to the scrubber's queue instead of being performed. */
  datatype Scheduled = Scheduled(imageId: string, uri: string)

  /** What `delete_image_from_backend` did: the deletions it queued and its result. */
  datatype Deletion = Deletion(queued: seq<Scheduled>, result: Result<(), Error>)

  /** A backend's `NotImplementedError` raised as `notSupported`; any other result unchanged. */
  function NotSupportedAs<T>(r: Result<T, Error>, notSupported: Error): Result<T, Error> {
    if r.Err? && r.error == NotImplemented then Err(notSupported) else r
  }

  /** The location and the store for `uri`: parse first, then look up the scheme of the URI. */
  function Resolve(api: StoreApi, uri: string): Result<(Location, Store), Error> {
    var loc :- api.parse(uri);
    var st :- StoreFromUri(api.registry, uri);
    Ok((loc, st))
  }

  /** `get_from_backend`. */
  function Get(api: StoreApi, ctx: Context, uri: string): (r: Result<Fetched, Error>)
    ensures api.parse(uri).Err? ==> r == Err(api.parse(uri).error)
    ensures api.parse(uri).Ok? && SchemeOfUri(uri) !in api.registry ==> r == Err(UnknownScheme(SchemeOfUri(uri)))
    ensures Resolve(api, uri).Ok? ==>
      var (loc, st) := Resolve(api, uri).value;
      var b := api.backend.get(st, loc, ctx);
      && (b.Err? && b.error == NotImplemented ==> r == Err(StoreGetNotSupported))
      && (!(b.Err? && b.error == NotImplemented) ==> r == b)
    ensures r.Err? && r.error == NotImplemented ==> api.parse(uri) == Err(NotImplemented)
  {
    var (loc, st) :- Resolve(api, uri);
    NotSupportedAs(api.backend.get(st, loc, ctx), StoreGetNotSupported)
  }

  /** `get_size_from_backend`: the backend's answer, with no translation at all. */
  function GetSize(api: StoreApi, ctx: Context, uri: string): (r: Result<int, Error>)
    ensures api.parse(uri).Err? ==> r == Err(api.parse(uri).error)
    ensures api.parse(uri).Ok? && SchemeOfUri(uri) !in api.registry ==> r == Err(UnknownScheme(SchemeOfUri(uri)))
    ensures api.parse(uri).Ok? && SchemeOfUri(uri) in api.registry ==>
      r == api.backend.getSize(api.registry[SchemeOfUri(uri)].store, api.parse(uri).value)
  {
    var (loc, st) :- Resolve(api, uri);
    api.backend.getSize(st, loc)
  }

  /** `delete_from_backend`. */
  function Delete(api: StoreApi, ctx: Context, uri: string): (r: Result<(), Error>)
    ensures api.parse(uri).Err? ==> r == Err(api.parse(uri).error)
    ensures api.parse(uri).Ok? && SchemeOfUri(uri) !in api.registry ==> r == Err(UnknownScheme(SchemeOfUri(uri)))
    ensures Resolve(api, uri).Ok? ==>
      var (loc, st) := Resolve(api, uri).value;
      var b := api.backend.delete(st, loc);
      && (b == Err(NotImplemented) ==> r == Err(StoreDeleteNotSupported))
      && (b != Err(NotImplemented) ==> r == b)
    ensures r == Err(NotImplemented) ==> api.parse(uri) == Err(NotImplemented)
  {
    var (loc, st) :- Resolve(api, uri);
    NotSupportedAs(api.backend.delete(st, loc), StoreDeleteNotSupported)
  }

  /**
   * `get_from_backend`, `get_size_from_backend` and `delete_from_backend`
   * locate the store the same way: a location they cannot resolve is the same
   * error from all three, and a resolved one reaches the driver unchanged.
   */
  lemma LookupsAgree(api: StoreApi, ctx: Context, uri: string)
    ensures Resolve(api, uri).Err? ==>
      && Get(api, ctx, uri) == Err(Resolve(api, uri).error)
      && GetSize(api, ctx, uri) == Err(Resolve(api, uri).error)
      && Delete(api, ctx, uri) == Err(Resolve(api, uri).error)
    ensures Resolve(api, uri).Ok? ==>
      GetSize(api, ctx, uri) == api.backend.getSize(Resolve(api, uri).value.1, Resolve(api, uri).value.0)
  {
  }

  /** The errors `safe_delete_from_backend` logs and swallows. */
  predicate Tolerated(e: Error) {
    e == NotFound || e == StoreDeleteNotSupported || e == UnsupportedBackend
  }

  /** `safe_delete_from_backend`: a deletion whose "already gone" and "cannot" outcomes are not errors. */
  function SafeDelete(api: StoreApi, ctx: Context, uri: string, imageId: string): (r: Result<(), Error>)
    ensures r.Ok? <==> Delete(api, ctx, uri).Ok? || Tolerated(Delete(api, ctx, uri).error)
    ensures r.Err? ==> r == Delete(api, ctx, uri) && !Tolerated(r.error)
  {
    var d := Delete(api, ctx, uri);
    if d.Err? && Tolerated(d.error) then Ok(()) else d
  }

  /**
   * `delete_image_from_backend`: with delayed delete on, the deletion is only
   * queued for the scrubber; otherwise it is performed now, best effort.
   */
  function DeleteImage(api: StoreApi, delayedDelete: bool, ctx: Context, imageId: string, uri: string): (d: Deletion)
    ensures delayedDelete ==> d.queued == [Scheduled(imageId, uri)] && d.result == Ok(())
    ensures !delayedDelete ==> d.queued == [] && d.result == SafeDelete(api, ctx, uri, imageId)
  {
    if delayedDelete then Deletion([Scheduled(imageId, uri)], Ok(()))
    else Deletion([], SafeDelete(api, ctx, uri, imageId))
  }

  /** `store_add_to_backend`: the driver's `add`, with the metadata it returns checked. */
  function StoreAdd(b: Backend, st: Store, imageId: string, data: Bytes, size: int): (r: Result<Added, Error>)
    ensures b.add(st, imageId, data, size).Err? ==> r == b.add(st, imageId, data, size)
    ensures b.add(st, imageId, data, size).Ok? ==>
      var md := b.add(st, imageId, data, size).value.metadata;
      && (r.Ok? <==> md.None? || (md.value.MDict? && AllText(md.value)))
      && (r.Ok? ==> r == b.add(st, imageId, data, size))
      && (md.Some? && !md.value.MDict? ==> r == Err(BackendException(MetadataNotDict(st.name))))
      && (md.Some? && md.value.MDict? && !AllText(md.value) ==>
            r.Err? && r.error.BackendException? && r.error.fault.BadMetadataStructure?
            && r.error.fault.store == st.name && r.error.fault.cause.InvalidLeafType?
            && r.error.fault.cause == Check(md.value, "").error.fault)
  {
    var added :- b.add(st, imageId, data, size);
    match added.metadata
    case None => Ok(added)
    case Some(md) =>
      if !md.MDict? then Err(BackendException(MetadataNotDict(st.name)))
      else
        match Check(md, "")
        case Ok(_) => Ok(added)
        case Err(e) => Err(BackendException(BadMetadataStructure(st.name, e.fault)))
  }

  /** `add_to_backend`: the store is looked up by scheme; a driver without `add` is reported as such. */
  function Add(api: StoreApi, ctx: Context, scheme: string, imageId: string, data: Bytes, size: int): (r: Result<Added, Error>)
    ensures scheme !in api.registry ==> r == Err(UnknownScheme(scheme))
    ensures scheme in api.registry ==>
      var st := api.registry[scheme].store;
      && (api.backend.add(st, imageId, data, size) == Err(NotImplemented) ==> r == Err(StoreAddNotSupported))
      && (api.backend.add(st, imageId, data, size) != Err(NotImplemented) ==> r == StoreAdd(api.backend, st, imageId, data, size))
    ensures r != Err(NotImplemented)
  {
    var st :- StoreFromScheme(api.registry, scheme);
    NotSupportedAs(StoreAdd(api.backend, st, imageId, data, size), StoreAddNotSupported)
  }

  /**
   * `set_acls`: the store is found through the parsed location's store name;
   * a driver without ACL support is skipped silently.
   */
  function SetAcls(api: StoreApi, ctx: Context, uri: string, acl: Acl): (r: Result<(), Error>)
    ensures api.parse(uri).Err? ==> r == Err(api.parse(uri).error)
    ensures api.parse(uri).Ok? ==>
      var loc := api.parse(uri).value;
      && (loc.storeName !in api.registry ==> r == Err(UnknownScheme(loc.storeName)))
      && (loc.storeName in api.registry ==>
            var b := api.backend.setAcls(api.registry[loc.storeName].store, loc, acl);
            && (b == Err(NotImplemented) ==> r == Ok(()))
            && (b != Err(NotImplemented) ==> r == b))
    ensures r == Err(NotImplemented) ==> api.parse(uri) == Err(NotImplemented)
  {
    var loc :- api.parse(uri);
    var st :- StoreFromScheme(api.registry, loc.storeName);
    var b := api.backend.setAcls(st, loc, acl);
    if b == Err(NotImplemented) then Ok(()) else b
  }

  /**
   * `_check_location_uri`: a location is valid when the backend reports a
   * positive size for it. A non-positive size, an unknown scheme and a missing
   * image all become `BadStoreUri`; any other error passes through.
   */
  function CheckLocationUri(api: StoreApi, ctx: Context, uri: string): (r: Result<(), Error>)
    ensures var s := GetSize(api, ctx, uri);
      && (r.Ok? <==> s.Ok? && s.value > 0)
      && (s.Ok? && s.value <= 0 ==> r == Err(BadStoreUri(uri)))
      && (s.Err? && (s.error.UnknownScheme? || s.error == NotFound) ==> r == Err(BadStoreUri(uri)))
      && (s.Err? && !s.error.UnknownScheme? && s.error != NotFound ==> r == Err(s.error))
  {
    match GetSize(api, ctx, uri)
    case Ok(size) => if size > 0 then Ok(()) else Err(BadStoreUri(uri))
    case Err(e) => if e.UnknownScheme? || e == NotFound then Err(BadStoreUri(uri)) else Err(e)
  }

  /**
   * `_check_image_location`: the location's URI is checked first; only a valid
   * URI gets its metadata checked, from an empty key path.
   */
  function CheckImageLocation(api: StoreApi, ctx: Context, uri: string, metadata: MVal): (r: Result<(), Error>)
    ensures r.Ok? <==> CheckLocationUri(api, ctx, uri).Ok? && AllText(metadata)
    ensures CheckLocationUri(api, ctx, uri).Err? ==> r == CheckLocationUri(api, ctx, uri)
    ensures CheckLocationUri(api, ctx, uri).Ok? && !AllText(metadata) ==>
      r.Err? && r.error.BackendException? && r.error.fault.InvalidLeafType?
  {
    var _ :- CheckLocationUri(api, ctx, uri);
    Check(metadata, "")
  }

  /** An image size counts as set when it is present and non-zero (Python truthiness). */
  predicate SizeIsSet(size: Option<int>) {
    size.Some? && size.value != 0
  }

  /** The loop of `_set_image_size` from location `i` on. */
  function FirstSize(api: StoreApi, ctx: Context, size: Option<int>, urls: seq<string>, i: nat): (r: Result<Option<int>, Error>)
    requires i <= |urls|
    decreases |urls| - i
  {
    if i == |urls| then Ok(size)
    else
      match GetSize(api, ctx, urls[i])
      case Err(e) => Err(e)
      case Ok(n) => if n != 0 then Ok(Some(n)) else FirstSize(api, ctx, size, urls, i + 1)
  }

  /**
   * `_set_image_size`: the image's new size. A set size is kept without asking
   * any backend; otherwise the first non-zero location size is taken.
   */
  function SetImageSize(api: StoreApi, ctx: Context, size: Option<int>, urls: seq<string>): (r: Result<Option<int>, Error>)
    ensures SizeIsSet(size) ==> r == Ok(size)
    ensures r.Ok? && r.value != size ==>
      r.value.Some? && r.value.value != 0
      && exists i :: 0 <= i < |urls| && GetSize(api, ctx, urls[i]) == Ok(r.value.value)
  {
    if SizeIsSet(size) then Ok(size)
    else
      FirstSizeFound(api, ctx, size, urls, 0);
      FirstSize(api, ctx, size, urls, 0)
  }

  lemma {:induction false} FirstSizeFound(api: StoreApi, ctx: Context, size: Option<int>, urls: seq<string>, i: nat)
    requires i <= |urls|
    ensures var r := FirstSize(api, ctx, size, urls, i);
      r.Ok? && r.value != size ==>
        r.value.Some? && r.value.value != 0
        && exists j :: i <= j < |urls| && GetSize(api, ctx, urls[j]) == Ok(r.value.value)
    decreases |urls| - i
  {
    if i < |urls| {
      FirstSizeFound(api, ctx, size, urls, i + 1);
    }
  }

  lemma {:induction false} FirstSizeStops(api: StoreApi, ctx: Context, size: Option<int>, urls: seq<string>, i: nat, k: nat)
    requires i <= k < |urls|
    requires forall j :: i <= j < k ==> GetSize(api, ctx, urls[j]) == Ok(0)
    requires GetSize(api, ctx, urls[k]).Err? || GetSize(api, ctx, urls[k]).value != 0
    ensures FirstSize(api, ctx, size, urls, i)
         == match GetSize(api, ctx, urls[k]) case Err(e) => Err(e) case Ok(n) => Ok(Some(n))
    decreases k - i
  {
    if i < k {
      FirstSizeStops(api, ctx, size, urls, i + 1, k);
    }
  }

  /**
   * With the size unset, the result is decided by the first location whose
   * size query fails or answers non-zero, after only zeros: its size, or its
   * error. The locations after it are never consulted.
   */
  lemma SetImageSizeFirstAnswer(api: StoreApi, ctx: Context, size: Option<int>, urls: seq<string>, k: nat)
    requires !SizeIsSet(size)
    requires k < |urls|
    requires forall j :: 0 <= j < k ==> GetSize(api, ctx, urls[j]) == Ok(0)
    requires GetSize(api, ctx, urls[k]).Err? || GetSize(api, ctx, urls[k]).value != 0
    ensures SetImageSize(api, ctx, size, urls)
         == match GetSize(api, ctx, urls[k]) case Err(e) => Err(e) case Ok(n) => Ok(Some(n))
    ensures SetImageSize(api, ctx, size, urls) == SetImageSize(api, ctx, size, urls[..k + 1])
  {
    FirstSizeStops(api, ctx, size, urls, 0, k);
    FirstSizeStops(api, ctx, size, urls[..k + 1], 0, k);
  }

  lemma {:induction false} FirstSizeAllZero(api: StoreApi, ctx: Context, size: Option<int>, urls: seq<string>, i: nat)
    requires i <= |urls|
    requires forall j :: i <= j < |urls| ==> GetSize(api, ctx, urls[j]) == Ok(0)
    ensures FirstSize(api, ctx, size, urls, i) == Ok(size)
    decreases |urls| - i
  {
    if i < |urls| {
      FirstSizeAllZero(api, ctx, size, urls, i + 1);
    }
  }

  /** When every location reports size zero, the image size stays as it was. */
  lemma SetImageSizeAllZero(api: StoreApi, ctx: Context, size: Option<int>, urls: seq<string>)
    requires forall j :: 0 <= j < |urls| ==> GetSize(api, ctx, urls[j]) == Ok(0)
    ensures SetImageSize(api, ctx, size, urls) == Ok(size)
  {
    FirstSizeAllZero(api, ctx, size, urls, 0);
  }
}
