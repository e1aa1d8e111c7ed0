/**
 * The database rows convert-page touches (pages/api/mupdf/convert-page.ts):
 * the orientation flag of a document version and the page rows, at most one
 * per (page number, version) pair.  The database client is modelled by a
 * class whose fields are the two tables; its value is a `Store`, and every
 * operation is specified by a function on stores.
 */
module PageStore {
  import opened Text
  import LinkScan
  import Rendering

  /** The unique key `pageNumber_versionId` of a page row. */
  datatype PageKey = PageKey(pageNumber: int, versionId: string)

  /** The columns convert-page writes when it creates a page row. */
  datatype NewPage = NewPage(
    file: string,
    storageType: string,
    pageLinks: seq<LinkScan.Link>,
    metadata: Rendering.PageMetadata)

  /** A stored page row; ids are handed out by the store. */
  datatype PageRow = PageRow(id: nat, key: PageKey, content: NewPage)

  /** Document versions (by id, with their `isVertical` flag) and page rows by key. */
  datatype Store = Store(versions: map<string, bool>, pages: map<PageKey, PageRow>, nextId: nat)

  /**
   * Every page row belongs to an existing version, is filed under its own
   * key, and has an id of its own below `nextId`.
   */
  predicate WellFormed(s: Store) {
    && (forall k | k in s.pages :: k.versionId in s.versions)
    && (forall k | k in s.pages :: s.pages[k].key == k && s.pages[k].id < s.nextId)
    && (forall k1, k2 | k1 in s.pages && k2 in s.pages && k1 != k2 :: s.pages[k1].id != s.pages[k2].id)
  }

  /** `documentVersion.update` of `isVertical`; None is the record-not-found error. */
  function SetOrientation(s: Store, versionId: string, isVertical: bool): (t: Option<Store>)
    ensures t.Some? <==> versionId in s.versions
    ensures t.Some? ==> t.value.pages == s.pages && t.value.nextId == s.nextId
    ensures t.Some? ==> t.value.versions.Keys == s.versions.Keys && t.value.versions[versionId] == isVertical
    ensures t.Some? ==> forall v | v in s.versions && v != versionId :: t.value.versions[v] == s.versions[v]
  {
    if versionId in s.versions then Some(s.(versions := s.versions[versionId := isVertical])) else None
  }

  /**
   * `documentPage.create`: a new row under a fresh id; None (the store
   * unchanged) on a unique-key or foreign-key violation.
   */
  function Create(s: Store, key: PageKey, np: NewPage): (r: (Store, Option<PageRow>))
    ensures r.1.Some? <==> key !in s.pages && key.versionId in s.versions
    ensures r.1.None? ==> r.0 == s
    ensures r.1.Some? ==>
      && r.1.value == PageRow(s.nextId, key, np)
      && r.0 == Store(s.versions, s.pages[key := r.1.value], s.nextId + 1)
  {
    if key in s.pages || key.versionId !in s.versions then (s, None)
    else
      var row := PageRow(s.nextId, key, np);
      (s.(pages := s.pages[key := row], nextId := s.nextId + 1), Some(row))
  }

  /** The check-then-create of convert-page: the existing row if there is one, a new one otherwise. */
  function Save(s: Store, key: PageKey, np: NewPage): (r: (Store, Option<PageRow>))
    ensures key in s.pages ==> r == (s, Some(s.pages[key]))
    ensures key !in s.pages ==> r == Create(s, key, np)
    ensures r.1.Some? <==> key in s.pages || key.versionId in s.versions
  {
    if key in s.pages then (s, Some(s.pages[key])) else Create(s, key, np)
  }

  // ----- properties of the store operations -----

  /** Setting the orientation keeps the store well formed and touches no page row. */
  lemma SetOrientationPreserves(s: Store, versionId: string, isVertical: bool)
    requires WellFormed(s)
    ensures SetOrientation(s, versionId, isVertical).Some? <==> versionId in s.versions
    ensures SetOrientation(s, versionId, isVertical).Some? ==>
      var t := SetOrientation(s, versionId, isVertical).value;
      && WellFormed(t)
      && t.pages == s.pages && t.nextId == s.nextId
      && t.versions.Keys == s.versions.Keys
      && t.versions[versionId] == isVertical
  {
  }

  /**
   * Saving keeps the store well formed; it succeeds exactly when a row is
   * already there or the version exists, its result is the row then filed
   * under the key, and no other key's row changes.
   */
  lemma SavePreserves(s: Store, key: PageKey, np: NewPage)
    requires WellFormed(s)
    ensures var (t, row) := Save(s, key, np);
      && WellFormed(t)
      && (row.Some? <==> key in s.pages || key.versionId in s.versions)
      && (row.Some? ==> key in t.pages && t.pages[key] == row.value)
      && (key in s.pages ==> t == s)
      && (row.None? ==> t == s)
      && t.versions == s.versions
      && (forall k | k != key :: (k in t.pages <==> k in s.pages) && (k in s.pages ==> t.pages[k] == s.pages[k]))
  {
    var (t, row) := Save(s, key, np);
    if key !in s.pages && key.versionId in s.versions {
      assert row.value.id == s.nextId;
      forall k1, k2 | k1 in t.pages && k2 in t.pages && k1 != k2
        ensures t.pages[k1].id != t.pages[k2].id
      {
        if k1 == key {
          assert t.pages[k2] == s.pages[k2];
        } else if k2 == key {
          assert t.pages[k1] == s.pages[k1];
        }
      }
    }
  }

  /**
   * A redelivered conversion finds the row the first one saved: saving the
   * same key again returns that row and changes nothing.
   */
  lemma SaveIdempotent(s: Store, key: PageKey, np: NewPage, np': NewPage)
    requires Save(s, key, np).1.Some?
    ensures var (t, row) := Save(s, key, np);
      Save(t, key, np') == (t, row)
  {
  }

  /** A new row's id differs from every id already in the store. */
  lemma FreshId(s: Store, key: PageKey, np: NewPage)
    requires WellFormed(s)
    requires key !in s.pages && key.versionId in s.versions
    ensures var row := Save(s, key, np).1;
      row.Some? && forall k | k in s.pages :: s.pages[k].id != row.value.id
  {
  }

  /** The database client: the two tables as fields, updated in place. */
  class Database {
    var versions: map<string, bool>
    var pages: map<PageKey, PageRow>
    var nextId: nat

    function Model(): Store
      reads this
    {
      Store(versions, pages, nextId)
    }

    predicate Valid()
      reads this
    {
      WellFormed(Model())
    }

    /** A database holding the given versions and no page rows. */
    constructor (initialVersions: map<string, bool>)
      ensures Valid()
      ensures Model() == Store(initialVersions, map[], 0)
    {
      versions := initialVersions;
      pages := map[];
      nextId := 0;
    }

    /** `documentVersion.update({ where: { id }, data: { isVertical } })`. */
    method UpdateVersionOrientation(versionId: string, isVertical: bool) returns (ok: bool)
      requires Valid()
      modifies this
      ensures Valid()
      ensures ok <==> versionId in old(versions)
      ensures ok ==> SetOrientation(old(Model()), versionId, isVertical) == Some(Model())
      ensures !ok ==> Model() == old(Model())
    {
      SetOrientationPreserves(Model(), versionId, isVertical);
      ok := versionId in versions;
      if ok {
        versions := versions[versionId := isVertical];
      }
    }

    /** `documentPage.findUnique` by the `pageNumber_versionId` key. */
    function FindPage(key: PageKey): (row: Option<PageRow>)
      reads this
      ensures row.Some? <==> key in pages
      ensures row.Some? ==> row.value == pages[key]
    {
      if key in pages then Some(pages[key]) else None
    }

    /** `documentPage.create`. */
    method CreatePage(key: PageKey, np: NewPage) returns (row: Option<PageRow>)
      requires Valid()
      modifies this
      ensures Valid()
      ensures (Model(), row) == Create(old(Model()), key, np)
    {
      ghost var before := Model();
      SavePreserves(before, key, np);
      if key in pages || key.versionId !in versions {
        row := None;
      } else {
        var created := PageRow(nextId, key, np);
        pages := pages[key := created];
        nextId := nextId + 1;
        row := Some(created);
      }
    }

    /** Look the page row up and create it only when it is missing. */
    method SavePage(key: PageKey, np: NewPage) returns (row: Option<PageRow>)
      requires Valid()
      modifies this
      ensures Valid()
      ensures (Model(), row) == Save(old(Model()), key, np)
    {
      var existingPage := FindPage(key);
      if existingPage.Some? {
        row := existingPage;
      } else {
        row := CreatePage(key, np);
      }
    }
  }
}
