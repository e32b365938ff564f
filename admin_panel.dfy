/** The admin panel's editors: services, gallery items and videos held in local storage and
    edited by append, replace-by-id and delete-by-id. Every editor reads the stored list
    (or its default), changes it, and writes the whole list back. */
module AdminPanel {
  import opened Wrappers
  import opened Text
  import opened Entities
  import opened Keyed
  import opened Storage
  import opened GallerySeed
  import opened Upload

  /** The four services shown before any edit has been saved. */
  const SeedServices: seq<Service> := [
    Service(StrId("giardinaggio"), "Giardinaggio",
      "Servizi completi di progettazione, manutenzione e cura di giardini, aiuole e spazi verdi.",
      "fas fa-seedling",
      ["Progettazione giardini", "Manutenzione aree verdi", "Potatura piante", "Irrigazione automatica"]),
    Service(StrId("facchinaggio"), "Facchinaggio",
      "Servizi di trasporto, carico e scarico merci con personale qualificato e attrezzature professionali.",
      "fas fa-truck",
      ["Trasporto merci", "Carico e scarico", "Traslochi", "Montaggio mobili"]),
    Service(StrId("pulizie"), "Pulizie",
      "Servizi di pulizia professionale per abitazioni, uffici e spazi commerciali con prodotti eco-friendly.",
      "fas fa-broom",
      ["Pulizie domestiche", "Pulizie uffici", "Pulizie post-ristrutturazione", "Sanificazione ambienti"]),
    Service(StrId("manutenzione"), "Piccola Manutenzione",
      "Interventi di piccola manutenzione edile e riparazioni per la vostra casa o ufficio.",
      "fas fa-tools",
      ["Riparazioni domestiche", "Tinteggiature", "Piccole ristrutturazioni", "Manutenzione ordinaria"])
  ]

  /** The one video listed before any video has been saved. */
  const SeedVideos: seq<Video> := [
    Video(StrId("video-1"), "Progetto Giardino Completo", "640", "360", "2025-09-30")
  ]

  /** `getStoredServices`: the stored list, or the seed services when the key is absent. */
  function ServicesOrSeed(stored: Option<seq<Service>>): (r: seq<Service>)
    ensures stored.Some? ==> r == stored.value
    ensures stored.None? ==> r == SeedServices && |r| == 4
  {
    stored.GetOr(SeedServices)
  }

  /** `getStoredGallery`: the stored list, or the empty list when the key is absent. */
  function GalleryOrEmpty(stored: Option<seq<GalleryItem>>): (r: seq<GalleryItem>)
    ensures stored.Some? ==> r == stored.value
    ensures stored.None? ==> r == []
  {
    stored.GetOr([])
  }

  /** `getStoredVideos`: the stored list, or the seed video when the key is absent. */
  function VideosOrSeed(stored: Option<seq<Video>>): (r: seq<Video>)
    ensures stored.Some? ==> r == stored.value
    ensures stored.None? ==> r == SeedVideos && |r| == 1
  {
    stored.GetOr(SeedVideos)
  }

  /** The seed services have distinct ids, all of them strings. */
  lemma SeedServicesWellFormed()
    ensures UniqueKeys(SeedServices, ServiceId)
    ensures forall j | 0 <= j < |SeedServices| :: SeedServices[j].id.StrId?
  {
    assert SeedServices[0].id.s[0] == 'g' && SeedServices[1].id.s[0] == 'f';
    assert SeedServices[2].id.s[0] == 'p' && SeedServices[3].id.s[0] == 'm';
  }

  // ---------------------------------------------------------------------------------------
  // Services

  /** `value.split('\n').filter(f => f.trim())`: the lines of the features box that hold a
      non-whitespace character, in order. */
  function ParseFeatures(text: string): (r: seq<string>)
    ensures forall f | f in r :: !IsBlank(f) && '\n' !in f
  {
    KeepNonBlank(Split(text, '\n'))
  }

  /** `lines.filter(f => f.trim())`: a line is kept exactly when its trimmed form is not
      the empty string, that is, when it is not blank. */
  function KeepNonBlank(lines: seq<string>): (r: seq<string>)
    ensures |r| <= |lines|
    ensures forall f | f in r :: f in lines && !IsBlank(f)
    ensures forall f | f in lines && !IsBlank(f) :: f in r
  {
    if lines == [] then []
    else
      TrimEmptyIffBlank(lines[0]);
      var rest := KeepNonBlank(lines[1..]);
      assert forall f | f in lines :: f == lines[0] || f in lines[1..];
      (if Trim(lines[0]) != "" then [lines[0]] else []) + rest
  }

  /** A list of non-blank lines is kept whole. */
  lemma {:induction false} KeepNonBlankAll(lines: seq<string>)
    requires forall j | 0 <= j < |lines| :: !IsBlank(lines[j])
    ensures KeepNonBlank(lines) == lines
  {
    if lines != [] {
      TrimEmptyIffBlank(lines[0]);
      KeepNonBlankAll(lines[1..]);
    }
  }

  /** Filtering a concatenation filters each part: the kept lines stay in their order, each
      as often as it occurs. */
  lemma {:induction false} KeepNonBlankConcat(a: seq<string>, b: seq<string>)
    ensures KeepNonBlank(a + b) == KeepNonBlank(a) + KeepNonBlank(b)
  {
    if a == [] {
      assert a + b == b;
    } else {
      assert (a + b)[0] == a[0] && (a + b)[1..] == a[1..] + b;
      KeepNonBlankConcat(a[1..], b);
      if Trim(a[0]) != "" {
        assert [a[0]] + (KeepNonBlank(a[1..]) + KeepNonBlank(b)) ==
          ([a[0]] + KeepNonBlank(a[1..])) + KeepNonBlank(b);
      } else {
        assert [] + KeepNonBlank(a[1..]) == KeepNonBlank(a[1..]);
      }
    }
  }

  /** One line is kept exactly when it is not blank. */
  lemma {:induction false} KeepNonBlankSingle(line: string)
    ensures KeepNonBlank([line]) == if IsBlank(line) then [] else [line]
  {
    TrimEmptyIffBlank(line);
    assert [line][1..] == [];
  }

  /** An empty features box gives no features (not one empty feature). */
  lemma ParseFeaturesEmpty()
    ensures ParseFeatures("") == []
  {
    TrimEmptyIffBlank("");
  }

  /** The edit form shows the features joined by newlines; parsing that text back gives the
      same features, provided each is non-blank and has no newline of its own. */
  lemma ParseFeaturesOfJoin(features: seq<string>)
    requires forall j | 0 <= j < |features| :: !IsBlank(features[j]) && '\n' !in features[j]
    ensures ParseFeatures(Join(features, "\n")) == features
  {
    if features == [] {
      TrimEmptyIffBlank("");
    } else {
      SplitJoin(features, '\n');
      KeepNonBlankAll(features);
    }
  }

  /** The record the service form submits: the edited service's id and the form's fields. */
  function ServiceFromForm(id: Id, title: string, description: string, icon: string, featuresText: string): (r: Service)
    ensures r.id == id && r.title == title && r.description == description && r.icon == icon
    ensures forall f | f in r.features :: !IsBlank(f) && '\n' !in f
  {
    Service(id, title, description, icon, ParseFeatures(featuresText))
  }

  /** A text the form's HTML shows as written: no quote to end a `value="…"` attribute, no
      `&` to start an entity, no `<` to end a textarea and no carriage return for the parser
      to turn into a newline. */
  predicate HtmlInert(text: string) {
    forall i | 0 <= i < |text| :: text[i] != '"' && text[i] != '&' && text[i] != '<' && text[i] != '\r'
  }

  /** Submitting the edit form unchanged gives back the service being edited, when its
      features are non-blank single lines and its texts are shown as written (a description
      starting with a newline loses it after `<textarea>`). */
  lemma EditFormRoundTrip(s: Service)
    requires forall j | 0 <= j < |s.features| :: !IsBlank(s.features[j]) && '\n' !in s.features[j]
    requires HtmlInert(s.title) && HtmlInert(s.icon) && HtmlInert(s.description)
    requires s.description == [] || s.description[0] != '\n'
    requires forall j | 0 <= j < |s.features| :: HtmlInert(s.features[j])
    ensures ServiceFromForm(s.id, s.title, s.description, s.icon, Join(s.features, "\n")) == s
  {
    ParseFeaturesOfJoin(s.features);
  }

  /** `addNewService`: the blank draft opened by the "new service" button. */
  function NewServiceDraft(now: nat): (r: Service)
    ensures r.id == StrId("new-" + NatToString(now))
    ensures r.title == "" && r.description == "" && r.features == [] && r.icon == "fas fa-cog"
  {
    Service(StrId("new-" + NatToString(now)), "", "", "fas fa-cog", [])
  }

  /** Drafts opened at different times get different ids. */
  lemma DraftIdsDistinct(t1: nat, t2: nat)
    requires t1 != t2
    ensures NewServiceDraft(t1).id != NewServiceDraft(t2).id
  {
    var p := "new-";
    if NewServiceDraft(t1).id == NewServiceDraft(t2).id {
      assert p + NatToString(t1) == p + NatToString(t2);
      assert NatToString(t1) == (p + NatToString(t1))[|p|..];
      assert NatToString(t2) == (p + NatToString(t2))[|p|..];
      ParseIntOfNatToString(t1);
      ParseIntOfNatToString(t2);
    }
  }

  /** `saveService`: a new service is pushed; an edited one replaces the first stored service
      with its id, and an unknown id leaves the list as it was. The list is written back in
      both cases. */
  method SaveService(store: LocalStore, service: Service, isNew: bool)
    modifies store`services
    ensures isNew ==> store.services == Some(old(ServicesOrSeed(store.services)) + [service])
    ensures !isNew ==> store.services == Some(ReplaceByKey(old(ServicesOrSeed(store.services)), ServiceId, service))
  {
    var services := ServicesOrSeed(store.services);
    if isNew {
      services := services + [service];
    } else {
      var index := FindIndex(services, ServiceId, service.id);
      if index != -1 {
        services := services[index := service];
      }
    }
    store.services := Some(services);
  }

  /** `editService`: the service whose id is given, if any. */
  function EditTarget(services: seq<Service>, serviceId: Id): (r: Option<Service>)
    ensures r.Some? ==> r.value in services && r.value.id == serviceId
    ensures r.None? ==> forall j | 0 <= j < |services| :: services[j].id != serviceId
    ensures r.Some? ==> 0 <= FirstIndex(services, ServiceId, serviceId) && r.value == services[FirstIndex(services, ServiceId, serviceId)]
  {
    Find(services, ServiceId, serviceId)
  }

  /** `deleteService`: after confirmation, every service with the id is filtered out. */
  method DeleteService(store: LocalStore, serviceId: Id, confirmed: bool)
    modifies store`services
    ensures !confirmed ==> store.services == old(store.services)
    ensures confirmed ==> store.services == Some(Without(old(ServicesOrSeed(store.services)), ServiceId, serviceId))
  {
    if confirmed {
      store.services := Some(Without(ServicesOrSeed(store.services), ServiceId, serviceId));
    }
  }

  /** Saving a new service then deleting its id gives back the list before, when its id was
      fresh. */
  lemma SaveNewThenDelete(services: seq<Service>, service: Service)
    requires forall j | 0 <= j < |services| :: services[j].id != service.id
    ensures Without(services + [service], ServiceId, service.id) == services
  {
    AppendThenRemove(services, ServiceId, service);
  }

  // ---------------------------------------------------------------------------------------
  // Buttons

  /** The text an id becomes inside the quoted `onclick="f('${id}')"` argument; the handler
      receives that text as a string. */
  function IdText(id: Id): string {
    match id
    case NumId(n) => IntToString(n)
    case StrId(s) => s
  }

  /** The id a list button hands to its handler. */
  function ButtonArgument(id: Id): (r: Id)
    ensures r.StrId?
    ensures id.StrId? ==> r == id
  {
    StrId(IdText(id))
  }

  /** A button of a numbered item finds nothing: no id in a numbered list equals a string. */
  lemma ButtonOnNumberedItemsFindsNothing(items: seq<GalleryItem>, id: Id)
    requires forall j | 0 <= j < |items| :: items[j].id.NumId?
    ensures Find(items, GalleryId, ButtonArgument(id)) == None
    ensures Without(items, GalleryId, ButtonArgument(id)) == items
  {
    WithoutAbsent(items, GalleryId, ButtonArgument(id));
  }

  /** The edit and delete buttons of the seed gallery do nothing to it: each passes the
      number as a string, which matches no seed id. */
  lemma SeedGalleryButtonsMatchNothing(i: nat)
    requires i < |CreateGalleryData()|
    ensures Find(CreateGalleryData(), GalleryId, ButtonArgument(CreateGalleryData()[i].id)) == None
    ensures Without(CreateGalleryData(), GalleryId, ButtonArgument(CreateGalleryData()[i].id)) == CreateGalleryData()
  {
    SeedIdsUnique();
    ButtonOnNumberedItemsFindsNothing(CreateGalleryData(), CreateGalleryData()[i].id);
  }

  /** A button of a string-keyed item (a service, an uploaded image, a video) reaches it:
      deleting through it leaves no element with that id. */
  lemma ButtonOnStringIdRemoves<T>(s: seq<T>, key: T -> Id, x: T)
    requires x in s && key(x).StrId?
    ensures Find(s, key, ButtonArgument(key(x))).Some?
    ensures forall y | y in Without(s, key, ButtonArgument(key(x))) :: key(y) != key(x)
  {
    var j :| 0 <= j < |s| && s[j] == x;
  }

  // ---------------------------------------------------------------------------------------
  // Gallery

  /** `loadGalleryItems`' storage effect: an absent or empty gallery is replaced by the seed
      list; any other gallery is kept. */
  function ReseedIfEmpty(gallery: seq<GalleryItem>): (r: seq<GalleryItem>)
    ensures gallery != [] ==> r == gallery
    ensures gallery == [] ==> r == CreateGalleryData() && |r| == 73
  {
    if gallery == [] then CreateGalleryData() else gallery
  }

  /** `loadGalleryItems`. */
  method LoadGalleryItems(store: LocalStore) returns (shown: seq<GalleryItem>)
    modifies store`gallery
    ensures shown == ReseedIfEmpty(old(GalleryOrEmpty(store.gallery)))
    ensures old(GalleryOrEmpty(store.gallery)) == [] ==> store.gallery == Some(shown)
    ensures old(GalleryOrEmpty(store.gallery)) != [] ==> store.gallery == old(store.gallery)
    ensures |shown| > 0
  {
    shown := GalleryOrEmpty(store.gallery);
    if shown == [] {
      shown := CreateGalleryData();
      store.gallery := Some(shown);
    }
  }

  /** `addImageToGallery`: the image is pushed onto the stored gallery (the refresh that
      follows finds it non-empty and keeps it). */
  method AddImageToGallery(store: LocalStore, image: GalleryItem)
    modifies store`gallery
    ensures store.gallery == Some(old(GalleryOrEmpty(store.gallery)) + [image])
  {
    store.gallery := Some(GalleryOrEmpty(store.gallery) + [image]);
    var _ := LoadGalleryItems(store);
  }

  /** The images among the settled outcomes, in file order. */
  function ProcessedImages(outcomes: seq<Outcome>): (r: seq<GalleryItem>)
    ensures |r| <= |outcomes|
    ensures forall x | x in r :: Processed(x) in outcomes
    ensures forall j | 0 <= j < |outcomes| && outcomes[j].Processed? :: outcomes[j].image in r
  {
    if outcomes == [] then []
    else
      var init := outcomes[..|outcomes| - 1];
      var last := outcomes[|outcomes| - 1];
      assert forall o | o in init :: o in outcomes;
      assert forall j | 0 <= j < |init| :: init[j] == outcomes[j];
      ProcessedImages(init) + (if last.Processed? then [last.image] else [])
  }

  /** Settling one more file extends the collected images by its image, if it has one. */
  lemma ProcessedImagesStep(outcomes: seq<Outcome>, i: nat)
    requires i < |outcomes|
    ensures ProcessedImages(outcomes[..i + 1]) ==
      ProcessedImages(outcomes[..i]) + (if outcomes[i].Processed? then [outcomes[i].image] else [])
  {
    assert outcomes[..i + 1][..i] == outcomes[..i];
  }

  /** An outcome is a rejection (a read or decode failure). */
  predicate AnyFailed(outcomes: seq<Outcome>) {
    exists j | 0 <= j < |outcomes| :: outcomes[j].Failed?
  }

  /** `handleImageUpload` once every file's promise has settled. `Promise.all` rejects as
      soon as one file fails, and then no image is stored; otherwise every processed image is
      pushed, in file order, and their number is reported. Skipped files add nothing. */
  method HandleImageUpload(store: LocalStore, outcomes: seq<Outcome>) returns (added: nat)
    modifies store`gallery
    ensures AnyFailed(outcomes) ==> added == 0 && store.gallery == old(store.gallery)
    ensures !AnyFailed(outcomes) ==> added == |ProcessedImages(outcomes)|
    ensures !AnyFailed(outcomes) && ProcessedImages(outcomes) != [] ==>
      store.gallery == Some(old(GalleryOrEmpty(store.gallery)) + ProcessedImages(outcomes))
    ensures ProcessedImages(outcomes) == [] ==> store.gallery == old(store.gallery)
  {
    added := 0;
    if outcomes == [] || AnyFailed(outcomes) {
      return;
    }
    ghost var original := store.gallery;
    ghost var done: seq<GalleryItem> := [];
    var i := 0;
    while i < |outcomes|
      invariant 0 <= i <= |outcomes|
      invariant done == ProcessedImages(outcomes[..i])
      invariant added == |done|
      invariant store.gallery == Grown(original, done)
    {
      ProcessedImagesStep(outcomes, i);
      if outcomes[i].Processed? {
        GrownStep(original, done, outcomes[i].image);
        AddImageToGallery(store, outcomes[i].image);
        done := done + [outcomes[i].image];
        added := added + 1;
      }
      i := i + 1;
    }
    assert outcomes[..|outcomes|] == outcomes;
  }

  /** The stored gallery after pushing `images` onto `g` one by one: untouched when there
      are none. */
  function Grown(g: Option<seq<GalleryItem>>, images: seq<GalleryItem>): Option<seq<GalleryItem>> {
    if images == [] then g else Some(GalleryOrEmpty(g) + images)
  }

  lemma GrownStep(g: Option<seq<GalleryItem>>, images: seq<GalleryItem>, x: GalleryItem)
    ensures Grown(g, images + [x]) == Some(GalleryOrEmpty(Grown(g, images)) + [x])
  {
    assert images + [x] != [];
    if images == [] {
      assert images + [x] == [x];
    } else {
      assert GalleryOrEmpty(g) + images + [x] == GalleryOrEmpty(g) + (images + [x]);
    }
  }

  /** `deleteGalleryItem`: after confirmation, the item is filtered out and the gallery is
      written back, then refreshed, which puts the seed list back if nothing is left. */
  method DeleteGalleryItem(store: LocalStore, itemId: Id, confirmed: bool)
    modifies store`gallery
    ensures !confirmed ==> store.gallery == old(store.gallery)
    ensures confirmed ==> store.gallery == Some(ReseedIfEmpty(Without(old(GalleryOrEmpty(store.gallery)), GalleryId, itemId)))
  {
    if confirmed {
      store.gallery := Some(Without(GalleryOrEmpty(store.gallery), GalleryId, itemId));
      var _ := LoadGalleryItems(store);
    }
  }

  /** `removeImagePreview`: the image is filtered out of the stored gallery at once, with no
      confirmation and no reseeding. */
  method RemoveImagePreview(store: LocalStore, imageId: Id)
    modifies store`gallery
    ensures store.gallery == Some(Without(old(GalleryOrEmpty(store.gallery)), GalleryId, imageId))
  {
    store.gallery := Some(Without(GalleryOrEmpty(store.gallery), GalleryId, imageId));
  }

  /** Deleting the last remaining image brings back the whole seed gallery. */
  lemma DeleteLastImageReseeds(item: GalleryItem)
    ensures ReseedIfEmpty(Without([item], GalleryId, item.id)) == CreateGalleryData()
  {
  }

  /** The gallery edit form's result: the edited item with the form's title, alt text and
      category. */
  function EditedItem(item: GalleryItem, title: string, alt: string, category: string): (r: GalleryItem)
    ensures r.id == item.id && r.src == item.src && r.thumbnail == item.thumbnail
    ensures r.uploadDate == item.uploadDate && r.upload == item.upload
    ensures r.title == title && r.alt == Some(alt) && r.category == category
  {
    item.(title := title, alt := Some(alt), category := category)
  }

  /** Submitting the gallery edit form: the first stored item with the edited item's id is
      replaced; if there is none, nothing is written. */
  method SubmitGalleryEdit(store: LocalStore, item: GalleryItem, title: string, alt: string, category: string)
    modifies store`gallery
    ensures var edited := EditedItem(item, title, alt, category);
      var gallery := old(GalleryOrEmpty(store.gallery));
      if FirstIndex(gallery, GalleryId, item.id) == -1 then store.gallery == old(store.gallery)
      else store.gallery == Some(ReplaceByKey(gallery, GalleryId, edited))
  {
    var edited := EditedItem(item, title, alt, category);
    var gallery := GalleryOrEmpty(store.gallery);
    var index := FindIndex(gallery, GalleryId, item.id);
    if index != -1 {
      gallery := gallery[index := edited];
      store.gallery := Some(gallery);
      var _ := LoadGalleryItems(store);
    }
  }

  // ---------------------------------------------------------------------------------------
  // Videos

  /** The video the video form submits at time `now`. */
  function NewVideo(now: nat, title: string, width: string, height: string, uploadDate: string): (r: Video)
    ensures r.id == StrId("video-" + NatToString(now))
    ensures r.title == title && r.width == width && r.height == height && r.uploadDate == uploadDate
  {
    Video(StrId("video-" + NatToString(now)), title, width, height, uploadDate)
  }

  /** The video form: the new video is pushed onto the stored list. */
  method AddVideo(store: LocalStore, now: nat, title: string, width: string, height: string, uploadDate: string)
    modifies store`videos
    ensures store.videos == Some(old(VideosOrSeed(store.videos)) + [NewVideo(now, title, width, height, uploadDate)])
  {
    var videos := VideosOrSeed(store.videos);
    videos := videos + [NewVideo(now, title, width, height, uploadDate)];
    store.videos := Some(videos);
  }

  /** `deleteVideo`: after confirmation, every video with the id is filtered out. */
  method DeleteVideo(store: LocalStore, videoId: Id, confirmed: bool)
    modifies store`videos
    ensures !confirmed ==> store.videos == old(store.videos)
    ensures confirmed ==> store.videos == Some(Without(old(VideosOrSeed(store.videos)), VideoId, videoId))
  {
    if confirmed {
      store.videos := Some(Without(VideosOrSeed(store.videos), VideoId, videoId));
    }
  }

  /** Deleting the seed video through its button leaves the list empty. */
  lemma DeleteSeedVideo()
    ensures Without(SeedVideos, VideoId, ButtonArgument(SeedVideos[0].id)) == []
  {
  }
}
