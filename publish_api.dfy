/** The publish API of the admin panel: the snapshot of the stored data, the published copy,
    the copy kept for the public site, the generated download files and the message that
    tells the public site about an update. */
module PublishApi {
  import opened Wrappers
  import opened Text
  import opened Entities
  import opened Keyed
  import opened Storage
  import AdminPanel
  import PublicSite

  // ---------------------------------------------------------------------------------------
  // Snapshot

  /** `getCurrentData`: the stored content, services, gallery, videos and settings (absent
      keys read as empty, unlike the admin panel's own readers), stamped with `now`. */
  function CurrentData(store: LocalStore, now: string): (r: WebsiteData)
    reads store`siteContent, store`services, store`gallery, store`videos, store`siteSettings
    ensures r.lastModified == Some(now) && r.lastUpdated == None && r.generatedAt == None
    ensures r.services == store.services.GetOr([]) && r.gallery == store.gallery.GetOr([])
    ensures r.videos == store.videos.GetOr([]) && r.content == store.siteContent.GetOr([])
    ensures r.settings == store.siteSettings.GetOr([])
  {
    WebsiteData(
      store.siteContent.GetOr([]), store.services.GetOr([]), store.gallery.GetOr([]),
      store.videos.GetOr([]), store.siteSettings.GetOr([]), Some(now), None, None)
  }

  /** With no stored services or videos the snapshot publishes none, while the admin panel
      lists its four seed services and its seed video. */
  lemma SnapshotDefaultsDifferFromPanel(store: LocalStore, now: string)
    requires store.services.None? && store.videos.None?
    ensures CurrentData(store, now).services == [] && |AdminPanel.ServicesOrSeed(store.services)| == 4
    ensures CurrentData(store, now).videos == [] && |AdminPanel.VideosOrSeed(store.videos)| == 1
  {
  }

  /** `hasUnpublishedChanges` as written: the fresh snapshot, time stamp included, against
      the published one. */
  function HasUnpublishedChanges(store: LocalStore, now: string): (r: bool)
    reads store`siteContent, store`services, store`gallery, store`videos, store`siteSettings
    reads store`publishedWebsiteData
    ensures store.publishedWebsiteData.None? ==> r
  {
    match store.publishedWebsiteData
    case None => true
    case Some(published) => CurrentData(store, now) != published
  }

  /** The comparison includes `lastModified`, which is the current time: once the clock has
      moved past the publish time, changes are reported even though nothing was edited. */
  lemma UnpublishedChangesAfterClockMoves(store: LocalStore, published: string, later: string)
    requires store.publishedWebsiteData == Some(CurrentData(store, published))
    requires later != published
    ensures HasUnpublishedChanges(store, later)
    ensures !HasUnpublishedEdits(store)
  {
    assert CurrentData(store, later).lastModified != CurrentData(store, published).lastModified;
  }

  /** The comparison the check evidently means: the five edited parts of the snapshot
      against the published ones, whatever the clock says. */
  predicate HasUnpublishedEdits(store: LocalStore)
    reads store`siteContent, store`services, store`gallery, store`videos, store`siteSettings
    reads store`publishedWebsiteData
    ensures store.publishedWebsiteData.None? ==> HasUnpublishedEdits(store)
    ensures store.publishedWebsiteData.Some? ==>
      var p := store.publishedWebsiteData.value;
      (!HasUnpublishedEdits(store) <==>
        && p.content == store.siteContent.GetOr([]) && p.services == store.services.GetOr([])
        && p.gallery == store.gallery.GetOr([]) && p.videos == store.videos.GetOr([])
        && p.settings == store.siteSettings.GetOr([]))
  {
    match store.publishedWebsiteData
    case None => true
    case Some(published) =>
      var current := CurrentData(store, "");
      || current.content != published.content || current.services != published.services
      || current.gallery != published.gallery || current.videos != published.videos
      || current.settings != published.settings
  }

  /** A missing snapshot and a changed collection are both reported by the corrected check;
      and whatever it reports, the check as written reports too, at any time. */
  lemma EditsDetected(store: LocalStore, t: string)
    ensures store.publishedWebsiteData.None? ==> HasUnpublishedEdits(store)
    ensures (store.publishedWebsiteData.Some? &&
      store.services.GetOr([]) != store.publishedWebsiteData.value.services) ==> HasUnpublishedEdits(store)
    ensures HasUnpublishedEdits(store) ==> HasUnpublishedChanges(store, t)
  {
    if store.publishedWebsiteData.Some? && HasUnpublishedEdits(store) {
      var p := store.publishedWebsiteData.value;
      var c := CurrentData(store, t);
      assert c.content != p.content || c.services != p.services || c.gallery != p.gallery
        || c.videos != p.videos || c.settings != p.settings;
    }
  }

  // ---------------------------------------------------------------------------------------
  // Theme stylesheet

  /** One CSS variable declaration for a setting: `--` + the key with its first "Color"
      turned into "-color" + `: ` + the value + `;`. */
  function ThemeLine(key: string, value: string): (r: string)
    ensures |r| >= 3 && r[..2] == "--"
  {
    "--" + ReplaceFirst(key, "Color", "-color") + ": " + value + ";"
  }

  /** The declarations for the settings whose key contains "Color", in entry order. */
  function ThemeLines(settings: Fields): (r: seq<string>)
    ensures |r| <= |settings|
    ensures forall i | 0 <= i < |r| :: |r[i]| >= 3 && r[i][..2] == "--"
  {
    if settings == [] then []
    else
      var (key, value) := settings[0];
      (if Contains(key, "Color") then [ThemeLine(key, value)] else []) + ThemeLines(settings[1..])
  }

  /** Lines are produced entry by entry: the lines of a concatenation are the lines of its
      parts, and one entry gives its declaration exactly when its key contains "Color". */
  lemma {:induction false} ThemeLinesConcat(a: Fields, b: Fields)
    ensures ThemeLines(a + b) == ThemeLines(a) + ThemeLines(b)
  {
    if a == [] {
      assert a + b == b;
    } else {
      assert (a + b)[0] == a[0] && (a + b)[1..] == a[1..] + b;
      ThemeLinesConcat(a[1..], b);
    }
  }

  lemma ThemeLinesSingle(key: string, value: string)
    ensures ThemeLines([(key, value)]) == if Contains(key, "Color") then [ThemeLine(key, value)] else []
  {
    assert [(key, value)][1..] == [];
  }

  /** A settings list with no "Color" key gives no declaration. */
  lemma {:induction false} NoColorNoLines(settings: Fields)
    requires forall i | 0 <= i < |settings| :: !Contains(settings[i].0, "Color")
    ensures ThemeLines(settings) == []
  {
    if settings != [] {
      NoColorNoLines(settings[1..]);
    }
  }

  /** For a key `prefix + "Color" + rest` whose prefix has no capital C, the declaration
      names `--prefix-color rest`; so `primaryColor` becomes `--primary-color`. */
  lemma ThemeLineOfColorKey(prefix: string, rest: string, value: string)
    requires 'C' !in prefix
    ensures ThemeLine(prefix + "Color" + rest, value) == "--" + prefix + "-color" + rest + ": " + value + ";"
  {
    var key := prefix + "Color" + rest;
    assert OccursAt(key, "Color", |prefix|) by {
      assert key[|prefix|..|prefix| + 5] == "Color";
    }
    forall j | 0 <= j < |prefix| ensures !OccursAt(key, "Color", j) {
      assert key[j] == prefix[j] && prefix[j] in prefix;
    }
    assert IndexOf(key, "Color") == |prefix|;
    assert key[..|prefix|] == prefix && key[|prefix| + 5..] == rest;
  }

  /** The separator the declarations are joined with. */
  const Indent: string := "\n    "

  /** `applyThemeSettings`' stylesheet: nothing for absent settings or when no key contains
      "Color", otherwise the declarations inside a `:root` block. */
  function ThemeCss(settings: Option<Fields>): (r: Option<string>)
    ensures settings.None? ==> r.None?
    ensures settings.Some? ==> (r.Some? <==> ThemeLines(settings.value) != [])
    ensures r.Some? ==> r.value == ":root {" + Indent + Join(ThemeLines(settings.value), Indent) + "\n}"
  {
    match settings
    case None => None
    case Some(s) =>
      var lines := ThemeLines(s);
      var cssVariables := Join(lines, Indent);
      JoinNonEmpty(lines, Indent);
      if cssVariables != "" then Some(":root {" + Indent + cssVariables + "\n}") else None
  }

  /** A join of non-empty strings is empty exactly when there is nothing to join. */
  lemma JoinNonEmpty(xs: seq<string>, sep: string)
    requires forall i | 0 <= i < |xs| :: xs[i] != ""
    ensures Join(xs, sep) == "" <==> xs == []
  {
    if |xs| >= 2 {
      assert |Join(xs, sep)| >= |xs[0]|;
    }
  }

  /** With absent settings, or settings without a "Color" key, no stylesheet is made. */
  lemma NoStylesheetWithoutColors(settings: Option<Fields>)
    requires settings.Some? ==> forall i | 0 <= i < |settings.value| :: !Contains(settings.value[i].0, "Color")
    ensures ThemeCss(settings).None?
  {
    if settings.Some? {
      NoColorNoLines(settings.value);
    }
  }

  // ---------------------------------------------------------------------------------------
  // Generated files

  /** `createDownloadableFile`: any earlier file with the name is dropped and the new one is
      pushed, so the list ends with it and holds no other file of that name. */
  method CreateDownloadableFile(store: LocalStore, filename: string, content: FileContent, createdAt: string)
    modifies store`generatedFiles
    ensures store.generatedFiles ==
      Some(Upsert(old(store.generatedFiles.GetOr([])), FileName, GeneratedFile(filename, content, createdAt)))
    ensures var files := store.generatedFiles.value;
      && |files| >= 1 && files[|files| - 1] == GeneratedFile(filename, content, createdAt)
      && (forall j | 0 <= j < |files| :: files[j].filename == filename <==> j == |files| - 1)
  {
    var existing := store.generatedFiles.GetOr([]);
    var file := GeneratedFile(filename, content, createdAt);
    UpsertProperties(existing, FileName, file);
    store.generatedFiles := Some(Without(existing, FileName, filename) + [file]);
  }

  /** Uploading the same name twice keeps only the second file; files of other names stay in
      their order. */
  lemma UpsertTwice(files: seq<GeneratedFile>, x: GeneratedFile, y: GeneratedFile)
    requires x.filename == y.filename
    ensures Upsert(Upsert(files, FileName, x), FileName, y) == Upsert(files, FileName, y)
  {
    WithoutConcat(Without(files, FileName, x.filename), [x], FileName, y.filename);
    WithoutIdempotent(files, FileName, x.filename);
  }

  /** `applyThemeSettings`: the stylesheet, when there is one, is stored as
      `theme-settings.css`. */
  method ApplyThemeSettings(store: LocalStore, settings: Option<Fields>, createdAt: string)
    modifies store`generatedFiles
    ensures ThemeCss(settings).None? ==> store.generatedFiles == old(store.generatedFiles)
    ensures ThemeCss(settings).Some? ==> (store.generatedFiles ==
      Some(Upsert(old(store.generatedFiles.GetOr([])), FileName,
        GeneratedFile("theme-settings.css", CssText(ThemeCss(settings).value), createdAt))))
  {
    var css := ThemeCss(settings);
    if css.Some? {
      CreateDownloadableFile(store, "theme-settings.css", CssText(css.value), createdAt);
    }
  }

  /** The files list after a successful publish of `data`: the gallery dump, the services
      dump and, when there is one, the stylesheet, each upserted in that order. */
  function PublishedFiles(existing: seq<GeneratedFile>, data: WebsiteData, now: string): (r: seq<GeneratedFile>)
    ensures |r| >= 1
    ensures ThemeCss(Some(data.settings)).None? ==> r[|r| - 1] == GeneratedFile("services.json", ServicesJson(data.services), now)
    ensures ThemeCss(Some(data.settings)).Some? ==>
      r[|r| - 1] == GeneratedFile("theme-settings.css", CssText(ThemeCss(Some(data.settings)).value), now)
  {
    var withGallery := Upsert(existing, FileName, GeneratedFile("gallery.json", GalleryJson(data.gallery), now));
    var withServices := Upsert(withGallery, FileName, GeneratedFile("services.json", ServicesJson(data.services), now));
    match ThemeCss(Some(data.settings))
    case None => withServices
    case Some(css) => Upsert(withServices, FileName, GeneratedFile("theme-settings.css", CssText(css), now))
  }

  /** `f` is in `files`, and it is the only entry with its name. */
  predicate SoleFile(files: seq<GeneratedFile>, f: GeneratedFile) {
    f in files && KeyCount(files, FileName, f.filename) == 1
  }

  /** An upserted file is the sole file of its name. */
  lemma UpsertMakesSole(files: seq<GeneratedFile>, f: GeneratedFile)
    ensures SoleFile(Upsert(files, FileName, f), f)
  {
    UpsertCounts(files, FileName, f, f.filename);
  }

  /** Upserting a file of another name keeps a sole file sole. */
  lemma UpsertKeepsSole(files: seq<GeneratedFile>, f: GeneratedFile, g: GeneratedFile)
    requires SoleFile(files, f) && g.filename != f.filename
    ensures SoleFile(Upsert(files, FileName, g), f)
  {
    UpsertCounts(files, FileName, g, f.filename);
  }

  /** In a list where `f` is the sole file of its name, every entry with that name is `f`. */
  lemma SoleFileIsTheOnly(files: seq<GeneratedFile>, f: GeneratedFile, j: nat)
    requires SoleFile(files, f) && j < |files| && files[j].filename == f.filename
    ensures files[j] == f
  {
    var i :| 0 <= i < |files| && files[i] == f;
    if files[j] != f {
      assert i != j;
      KeyCountTwo(files, FileName, f.filename, if i < j then i else j, if i < j then j else i);
      assert false;
    }
  }

  /** After a publish `gallery.json` is the sole file of its name and holds the published
      gallery, `services.json` likewise holds the published services, and every earlier file
      of another name is still there. */
  lemma PublishedFilesContents(existing: seq<GeneratedFile>, data: WebsiteData, now: string)
    ensures var r := PublishedFiles(existing, data, now);
      && SoleFile(r, GeneratedFile("gallery.json", GalleryJson(data.gallery), now))
      && SoleFile(r, GeneratedFile("services.json", ServicesJson(data.services), now))
      && (forall f | f in existing && f.filename != "gallery.json" && f.filename != "services.json"
            && f.filename != "theme-settings.css" :: f in r)
  {
    var g := GeneratedFile("gallery.json", GalleryJson(data.gallery), now);
    var s := GeneratedFile("services.json", ServicesJson(data.services), now);
    var withGallery := Upsert(existing, FileName, g);
    var withServices := Upsert(withGallery, FileName, s);
    UpsertMakesSole(existing, g);
    UpsertKeepsSole(withGallery, g, s);
    UpsertMakesSole(withGallery, s);
    var r := PublishedFiles(existing, data, now);
    var css := ThemeCss(Some(data.settings));
    if css.Some? {
      var t := GeneratedFile("theme-settings.css", CssText(css.value), now);
      assert r == Upsert(withServices, FileName, t);
      UpsertKeepsSole(withServices, g, t);
      UpsertKeepsSole(withServices, s, t);
    }
    forall f | f in existing && f.filename != "gallery.json" && f.filename != "services.json"
      && f.filename != "theme-settings.css"
      ensures f in r
    {
      UpsertKeepsOthers(existing, g, f);
      UpsertKeepsOthers(withGallery, s, f);
      if css.Some? {
        UpsertKeepsOthers(withServices, GeneratedFile("theme-settings.css", CssText(css.value), now), f);
      }
    }
  }

  /** An upsert keeps every file of another name. */
  lemma UpsertKeepsOthers(files: seq<GeneratedFile>, g: GeneratedFile, f: GeneratedFile)
    requires f in files && f.filename != g.filename
    ensures f in Upsert(files, FileName, g)
  {
  }

  // ---------------------------------------------------------------------------------------
  // Notifying the public site

  /** What the admin window can see of its surroundings: the window that opened it, if any,
      and whether it is closed; and whether its parent is another window (an iframe host). */
  datatype WindowContext = WindowContext(openerClosed: Option<bool>, parentIsOther: bool)

  datatype Target = Opener | Parent | NoWindow

  /** `updateParentWindow`'s choice: the opener while it is open, else a distinct parent,
      else nobody. */
  function NotifyTarget(w: WindowContext): (r: Target)
    ensures r == Opener <==> w.openerClosed == Some(false)
    ensures r == Parent <==> w.openerClosed != Some(false) && w.parentIsOther
    ensures r == NoWindow <==> w.openerClosed != Some(false) && !w.parentIsOther
  {
    if w.openerClosed.Some? && !w.openerClosed.value then Opener
    else if w.parentIsOther then Parent
    else NoWindow
  }

  /** The posted message: `{type: 'WEBSITE_UPDATE', data}`. */
  function UpdateMessage(data: WebsiteData): (m: PublicSite.MessageData)
    ensures PublicSite.IsWebsiteUpdate(Some(m)) && m.payload == Some(data)
  {
    PublicSite.MessageData(Some("WEBSITE_UPDATE"), Some(data))
  }

  /** A posted message, with the window it goes to. */
  datatype Notification = Notification(target: Target, message: PublicSite.MessageData)

  /** The public site's listener accepts the message the publish step posts, and applies the
      published content. */
  lemma PostedMessageAccepted(page: PublicSite.Page, data: WebsiteData)
    ensures PublicSite.IsWebsiteUpdate(Some(UpdateMessage(data)))
    ensures PublicSite.OnMessage(page, Some(UpdateMessage(data))) == PublicSite.UpdateSiteContent(page, data.content)
  {
  }

  /** `updateIndexHTML`: the copy for the public site is the data plus `generatedAt`, and the
      data itself is posted to the chosen window. */
  method UpdateIndexHtml(store: LocalStore, data: WebsiteData, now: string, window: WindowContext)
    returns (sent: Option<Notification>)
    modifies store`mainWebsiteData
    ensures store.mainWebsiteData == Some(data.(generatedAt := Some(now)))
    ensures NotifyTarget(window) == NoWindow ==> sent.None?
    ensures NotifyTarget(window) != NoWindow ==> sent == Some(Notification(NotifyTarget(window), UpdateMessage(data)))
  {
    store.mainWebsiteData := Some(data.(generatedAt := Some(now)));
    var target := NotifyTarget(window);
    if target == NoWindow {
      sent := None;
    } else {
      sent := Some(Notification(target, UpdateMessage(data)));
    }
  }

  // ---------------------------------------------------------------------------------------
  // Publishing

  const SuccessMessage: string := "Sito web aggiornato con successo!"
  const ServerError: string := "Errore temporaneo del server"

  /** `publishChanges`. `serverFails` is the simulated server's five-per-cent failure and
      `now` the ISO time every step of the call reads. On failure nothing is written and the
      error is reported; on success the snapshot is published, the copy for the public site
      and the download files are written, and the public site is notified. */
  method PublishChanges(store: LocalStore, now: string, serverFails: bool, window: WindowContext)
    returns (result: Result<string, string>, sent: Option<Notification>)
    modifies store`publishedWebsiteData, store`mainWebsiteData, store`generatedFiles
    ensures serverFails ==>
      && result == Failure("Errore di connessione: " + ServerError) && sent.None?
      && store.publishedWebsiteData == old(store.publishedWebsiteData)
      && store.mainWebsiteData == old(store.mainWebsiteData)
      && store.generatedFiles == old(store.generatedFiles)
    ensures !serverFails ==>
      var data := old(CurrentData(store, now));
      && result == Success(SuccessMessage)
      && store.publishedWebsiteData == Some(data)
      && store.mainWebsiteData == Some(data.(generatedAt := Some(now)))
      && store.generatedFiles == Some(PublishedFiles(old(store.generatedFiles.GetOr([])), data, now))
      && (NotifyTarget(window) == NoWindow ==> sent.None?)
      && (NotifyTarget(window) != NoWindow ==> sent == Some(Notification(NotifyTarget(window), UpdateMessage(data))))
    ensures !serverFails ==> !HasUnpublishedEdits(store) && !HasUnpublishedChanges(store, now)
  {
    var data := CurrentData(store, now);
    if serverFails {
      result := Failure("Errore di connessione: " + ServerError);
      sent := None;
      return;
    }
    store.publishedWebsiteData := Some(data);
    sent := GenerateUpdatedFiles(store, data, now, window);
    assert CurrentData(store, now) == data;
    NothingUnpublishedAfterPublish(store, now);
    result := Success(SuccessMessage);
  }

  /** Right after the snapshot is published, neither check reports a change. */
  lemma NothingUnpublishedAfterPublish(store: LocalStore, now: string)
    requires store.publishedWebsiteData == Some(CurrentData(store, now))
    ensures !HasUnpublishedEdits(store) && !HasUnpublishedChanges(store, now)
  {
  }

  /** `generateUpdatedFiles`: the copy for the public site and its notification, then the
      gallery and services dumps and the stylesheet. */
  method GenerateUpdatedFiles(store: LocalStore, data: WebsiteData, now: string, window: WindowContext)
    returns (sent: Option<Notification>)
    modifies store`mainWebsiteData, store`generatedFiles
    ensures store.mainWebsiteData == Some(data.(generatedAt := Some(now)))
    ensures store.generatedFiles == Some(PublishedFiles(old(store.generatedFiles.GetOr([])), data, now))
    ensures NotifyTarget(window) == NoWindow ==> sent.None?
    ensures NotifyTarget(window) != NoWindow ==> sent == Some(Notification(NotifyTarget(window), UpdateMessage(data)))
  {
    sent := UpdateIndexHtml(store, data, now, window);
    CreateDownloadableFile(store, "gallery.json", GalleryJson(data.gallery), now);
    CreateDownloadableFile(store, "services.json", ServicesJson(data.services), now);
    ApplyThemeSettings(store, Some(data.settings), now);
  }
}
