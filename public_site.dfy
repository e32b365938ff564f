/** The public site's data rules: contact-form validation, the gallery tab filter, the
    five-minute update check, the content overwrite rule and the update-message check. */
module PublicSite {
  import opened Wrappers
  import opened Text
  import opened Entities
  import opened Storage
  import opened GallerySeed

  // ---------------------------------------------------------------------------------------
  // Email

  /** A character the pattern's `[^\s@]` class admits. */
  predicate EmailChar(c: char) {
    !IsWhitespace(c) && c != '@'
  }

  /** Positions `lo` up to `hi` of `s` hold admitted characters. */
  predicate EmailCharsIn(s: string, lo: int, hi: int)
    requires 0 <= lo && hi <= |s|
  {
    forall i | lo <= i < hi :: EmailChar(s[i])
  }

  /** `/^[^\s@]+@[^\s@]+\.[^\s@]+$/.test(s)`: `s` splits as `a@b.c` with `a`, `b`, `c`
      non-empty runs of admitted characters (the `@` at index k, the `.` at index m). */
  predicate IsValidEmail(s: string)
    ensures IsValidEmail(s) ==> |s| >= 5 && '@' in s && '.' in s
  {
    exists k | 0 < k < |s| ::
      exists m | k + 1 < m < |s| - 1 ::
        && s[k] == '@' && s[m] == '.'
        && EmailCharsIn(s, 0, k) && EmailCharsIn(s, k + 1, m) && EmailCharsIn(s, m + 1, |s|)
  }

  /** The same language described by its parts: no whitespace anywhere, exactly one `@`,
      not at the start, and after it a `.` that is neither the first nor the last character
      of the part after the `@`. */
  predicate EmailRule(s: string) {
    && (forall i | 0 <= i < |s| :: !IsWhitespace(s[i]))
    && exists k | 0 < k < |s| ::
      && s[k] == '@'
      && (forall j | 0 <= j < |s| && j != k :: s[j] != '@')
      && exists m | k + 1 < m < |s| - 1 :: s[m] == '.'
  }

  /** The pattern accepts exactly the strings the rule describes. */
  lemma EmailPatternMeansRule(s: string)
    ensures IsValidEmail(s) <==> EmailRule(s)
  {
    if IsValidEmail(s) {
      PatternGivesRule(s);
    }
    if EmailRule(s) {
      RuleGivesPattern(s);
    }
  }

  lemma PatternGivesRule(s: string)
    requires IsValidEmail(s)
    ensures EmailRule(s)
  {
    var k, m :| 0 < k < |s| && k + 1 < m < |s| - 1 && s[k] == '@' && s[m] == '.'
      && EmailCharsIn(s, 0, k) && EmailCharsIn(s, k + 1, m) && EmailCharsIn(s, m + 1, |s|);
    assert forall i | 0 <= i < |s| && i != k :: EmailChar(s[i]);
  }

  lemma RuleGivesPattern(s: string)
    requires EmailRule(s)
    ensures IsValidEmail(s)
  {
    var k :| 0 < k < |s| && s[k] == '@' && (forall j | 0 <= j < |s| && j != k :: s[j] != '@')
      && exists m | k + 1 < m < |s| - 1 :: s[m] == '.';
    var m :| k + 1 < m < |s| - 1 && s[m] == '.';
    assert EmailCharsIn(s, 0, k) && EmailCharsIn(s, k + 1, m) && EmailCharsIn(s, m + 1, |s|);
  }

  // ---------------------------------------------------------------------------------------
  // Contact form

  /** The submitted form fields; `None` is a field the form did not send. */
  datatype ContactForm = ContactForm(
    nome: Option<string>, email: Option<string>, servizio: Option<string>, messaggio: Option<string>)

  /** The four checks, in the order they are made. */
  datatype FormError = NameTooShort | InvalidEmail | NoService | MessageTooShort {
    function Rank(): nat {
      match this
      case NameTooShort => 0
      case InvalidEmail => 1
      case NoService => 2
      case MessageTooShort => 3
    }

    function Message(): string {
      match this
      case NameTooShort => "Il nome deve contenere almeno 2 caratteri"
      case InvalidEmail => "Inserisci un indirizzo email valido"
      case NoService => "Seleziona un servizio"
      case MessageTooShort => "Il messaggio deve contenere almeno 10 caratteri"
    }
  }

  /** JavaScript truthiness of an optional string field. */
  predicate Filled(field: Option<string>) {
    field.Some? && field.value != ""
  }

  predicate NameOk(data: ContactForm) {
    Filled(data.nome) && |Trim(data.nome.value)| >= 2
  }

  predicate EmailOk(data: ContactForm) {
    Filled(data.email) && IsValidEmail(data.email.value)
  }

  predicate ServiceOk(data: ContactForm) {
    Filled(data.servizio)
  }

  predicate MessageOk(data: ContactForm) {
    Filled(data.messaggio) && |Trim(data.messaggio.value)| >= 10
  }

  /** `validateForm`: collects one error per failed check, in check order, and accepts the
      form exactly when there is none. */
  method ValidateForm(data: ContactForm) returns (valid: bool, errors: seq<FormError>)
    ensures valid <==> errors == []
    ensures valid <==> NameOk(data) && EmailOk(data) && ServiceOk(data) && MessageOk(data)
    ensures NameTooShort in errors <==> !NameOk(data)
    ensures InvalidEmail in errors <==> !EmailOk(data)
    ensures NoService in errors <==> !ServiceOk(data)
    ensures MessageTooShort in errors <==> !MessageOk(data)
    ensures forall i, j | 0 <= i < j < |errors| :: errors[i].Rank() < errors[j].Rank()
  {
    var nameOk, emailOk, serviceOk, messageOk := NameOk(data), EmailOk(data), ServiceOk(data), MessageOk(data);
    errors := CollectErrors(nameOk, emailOk, serviceOk, messageOk);
    ErrorListFacts(nameOk, emailOk, serviceOk, messageOk);
    valid := |errors| == 0;
  }

  /** The error pushes of `validateForm`, one per failed check, in check order. */
  method CollectErrors(nameOk: bool, emailOk: bool, serviceOk: bool, messageOk: bool) returns (errors: seq<FormError>)
    ensures errors == ErrorList(nameOk, emailOk, serviceOk, messageOk)
  {
    errors := [];
    if !nameOk {
      errors := errors + [NameTooShort];
    }
    ghost var e1 := errors;
    assert e1 == (if nameOk then [] else [NameTooShort]);
    if !emailOk {
      errors := errors + [InvalidEmail];
    }
    ghost var e2 := errors;
    assert e2 == e1 + (if emailOk then [] else [InvalidEmail]);
    if !serviceOk {
      errors := errors + [NoService];
    }
    ghost var e3 := errors;
    assert e3 == e2 + (if serviceOk then [] else [NoService]);
    if !messageOk {
      errors := errors + [MessageTooShort];
    }
    assert errors == e3 + (if messageOk then [] else [MessageTooShort]);
  }

  /** The errors for the four check outcomes, in check order. */
  ghost function ErrorList(nameOk: bool, emailOk: bool, serviceOk: bool, messageOk: bool): seq<FormError> {
    (if nameOk then [] else [NameTooShort]) + (if emailOk then [] else [InvalidEmail]) +
    (if serviceOk then [] else [NoService]) + (if messageOk then [] else [MessageTooShort])
  }

  lemma ErrorListFacts(nameOk: bool, emailOk: bool, serviceOk: bool, messageOk: bool)
    ensures var errors := ErrorList(nameOk, emailOk, serviceOk, messageOk);
      && (errors == [] <==> nameOk && emailOk && serviceOk && messageOk)
      && (NameTooShort in errors <==> !nameOk) && (InvalidEmail in errors <==> !emailOk)
      && (NoService in errors <==> !serviceOk) && (MessageTooShort in errors <==> !messageOk)
      && forall i, j | 0 <= i < j < |errors| :: errors[i].Rank() < errors[j].Rank()
  {
  }

  /** The error notification: the messages joined by line breaks. */
  function ErrorNotice(errors: seq<FormError>): (r: string)
    ensures errors == [] ==> r == ""
    ensures errors != [] ==> |errors[0].Message()| <= |r| && r[..|errors[0].Message()|] == errors[0].Message()
  {
    Join(seq(|errors|, i requires 0 <= i < |errors| => errors[i].Message()), "<br>")
  }

  // ---------------------------------------------------------------------------------------
  // Gallery tabs

  /** The tab filter: an item is shown on the "all" tab and on the tab of its category. */
  predicate IsShown(filter: string, category: string)
    ensures filter == "all" ==> IsShown(filter, category)
    ensures filter != "all" ==> (IsShown(filter, category) <==> category == filter)
  {
    filter == "all" || category == filter
  }

  /** The items a tab shows, in gallery order. */
  function VisibleItems(items: seq<GalleryItem>, filter: string): (r: seq<GalleryItem>)
    ensures |r| <= |items|
    ensures forall x | x in r :: x in items && IsShown(filter, x.category)
    ensures forall x | x in items && IsShown(filter, x.category) :: x in r
  {
    if items == [] then []
    else
      assert forall x | x in items :: x == items[0] || x in items[1..];
      (if IsShown(filter, items[0].category) then [items[0]] else []) + VisibleItems(items[1..], filter)
  }

  /** The "all" tab shows the whole gallery, in order. */
  lemma {:induction false} AllTabShowsEverything(items: seq<GalleryItem>)
    ensures VisibleItems(items, "all") == items
  {
    if items != [] {
      AllTabShowsEverything(items[1..]);
    }
  }

  /** Every seed item is shown on exactly one of the four category tabs. */
  lemma SeedItemOnOneCategoryTab(i: nat, t: nat)
    requires i < |CreateGalleryData()| && t < |Categories|
    ensures IsShown(Categories[t], CreateGalleryData()[i].category) <==> t == i % 4
  {
    SeedItemAt(i);
    CategoryTabsDistinct(t, i % 4);
  }

  /** The four category tabs are distinct, and none of them is the "all" tab. */
  lemma CategoryTabsDistinct(t: nat, c: nat)
    requires t < |Categories| && c < |Categories|
    ensures IsShown(Categories[t], Categories[c]) <==> t == c
  {
    assert Categories[0][0] == 'g' && Categories[1][0] == 'p' && Categories[2][0] == 'f' && Categories[3][0] == 'm';
  }

  // ---------------------------------------------------------------------------------------
  // Update check

  /** Five minutes, in milliseconds. */
  const UpdateCheckInterval: int := 300000

  /** `!lastCheck || (currentTime - parseInt(lastCheck)) > 300000`: no earlier check (or an
      empty record), or more than five minutes since it. A record that does not parse as a
      number makes the difference NaN, and the check is never due again. */
  predicate UpdateCheckDue(lastCheck: Option<string>, now: int)
    ensures lastCheck == None || lastCheck == Some("") ==> UpdateCheckDue(lastCheck, now)
    ensures lastCheck.Some? && lastCheck.value != "" && ParseInt(lastCheck.value).None? ==> !UpdateCheckDue(lastCheck, now)
  {
    match lastCheck
    case None => true
    case Some(text) =>
      text == "" || (match ParseInt(text) case None => false case Some(t) => now - t > UpdateCheckInterval)
  }

  /** `checkForUpdates`. Only acts when a published snapshot exists; when the check is due it
      records the time, and it asks for the "updates available" notice when the snapshot
      carries a `lastUpdated` date later than the page load. `dateTime` stands for
      `new Date(text).getTime()`, with `None` for an invalid date. */
  method CheckForUpdates(store: LocalStore, now: nat, pageLoaded: int, dateTime: string -> Option<int>)
    returns (notify: bool)
    modifies store`lastUpdateCheck
    ensures old(store.publishedWebsiteData).Some? && UpdateCheckDue(old(store.lastUpdateCheck), now) ==>
      store.lastUpdateCheck == Some(NatToString(now))
    ensures !(old(store.publishedWebsiteData).Some? && UpdateCheckDue(old(store.lastUpdateCheck), now)) ==>
      store.lastUpdateCheck == old(store.lastUpdateCheck)
    ensures notify <==>
      && old(store.publishedWebsiteData).Some?
      && UpdateCheckDue(old(store.lastUpdateCheck), now)
      && Filled(old(store.publishedWebsiteData).value.lastUpdated)
      && var t := dateTime(old(store.publishedWebsiteData).value.lastUpdated.value);
        t.Some? && t.value > pageLoaded
  {
    notify := false;
    if store.publishedWebsiteData.Some? {
      var data := store.publishedWebsiteData.value;
      var lastCheck := store.lastUpdateCheck;
      if UpdateCheckDue(lastCheck, now) {
        store.lastUpdateCheck := Some(NatToString(now));
        if Filled(data.lastUpdated) {
          var lastUpdated := dateTime(data.lastUpdated.value);
          if lastUpdated.Some? && lastUpdated.value > pageLoaded {
            notify := true;
          }
        }
      }
    }
  }

  /** The gate measures from the recorded check: right after a check at `checkedAt`, a check at
      `now` is due exactly when more than five minutes have passed. */
  lemma UpdateCheckGate(checkedAt: nat, now: int)
    ensures UpdateCheckDue(Some(NatToString(checkedAt)), now) <==> now - checkedAt > 300000
  {
    ParseIntOfNatToString(checkedAt);
  }

  // ---------------------------------------------------------------------------------------
  // Page content

  /** A link on the page. */
  datatype Link = Link(href: string, text: string)

  /** The parts of the page the content update touches. A text element the page lacks is
      `None`. */
  datatype Page = Page(
    heroTitle: Option<string>, heroSubtitle: Option<string>, heroDescription: Option<string>,
    aboutText: Option<string>, links: seq<Link>, contactParagraphs: seq<string>)

  /** `content.key` when it is truthy: present and non-empty. */
  function Present(content: Fields, key: string): (r: Option<string>)
    ensures r.Some? <==> Lookup(content, key).Some? && Lookup(content, key).value != ""
    ensures r.Some? ==> r.value == Lookup(content, key).value
  {
    match Lookup(content, key)
    case Some(v) => if v != "" then Some(v) else None
    case None => None
  }

  /** `if (element && value) element.textContent = value`. */
  function SetText(element: Option<string>, value: Option<string>): Option<string> {
    if element.Some? && value.Some? then value else element
  }

  /** Every link whose target starts with `prefix` is pointed at `prefix + value` and shows
      `value`; when `value` is absent nothing changes. */
  function Retarget(links: seq<Link>, prefix: string, value: Option<string>): (r: seq<Link>)
    ensures |r| == |links|
    ensures value.None? ==> r == links
    ensures forall i | 0 <= i < |links| :: StartsWith(r[i].href, prefix) <==> StartsWith(links[i].href, prefix)
    ensures forall i | 0 <= i < |links| && !StartsWith(links[i].href, prefix) :: r[i] == links[i]
    ensures value.Some? ==> forall i | 0 <= i < |links| && StartsWith(links[i].href, prefix) ::
      r[i] == Link(prefix + value.value, value.value)
  {
    match value
    case None => links
    case Some(v) =>
      assert (prefix + v)[..|prefix|] == prefix && (prefix + v)[|prefix|..] == v;
      seq(|links|, i requires 0 <= i < |links| =>
        if StartsWith(links[i].href, prefix) then Link(prefix + v, v) else links[i])
  }

  /** Every contact paragraph that mentions "Novara" is replaced by `value`. */
  function ReplaceAddress(paragraphs: seq<string>, value: Option<string>): (r: seq<string>)
    ensures |r| == |paragraphs|
    ensures value.None? ==> r == paragraphs
    ensures forall i | 0 <= i < |paragraphs| && !Contains(paragraphs[i], "Novara") :: r[i] == paragraphs[i]
    ensures value.Some? ==> forall i | 0 <= i < |paragraphs| && Contains(paragraphs[i], "Novara") :: r[i] == value.value
  {
    match value
    case None => paragraphs
    case Some(v) =>
      seq(|paragraphs|, i requires 0 <= i < |paragraphs| =>
        if Contains(paragraphs[i], "Novara") then v else paragraphs[i])
  }

  /** `updateSiteContent` followed by `updateContactInfo`. */
  function UpdateSiteContent(page: Page, content: Fields): (r: Page)
    ensures |r.links| == |page.links| && |r.contactParagraphs| == |page.contactParagraphs|
    ensures r.heroTitle.None? <==> page.heroTitle.None?
    ensures r.heroSubtitle.None? <==> page.heroSubtitle.None?
    ensures r.heroDescription.None? <==> page.heroDescription.None?
    ensures r.aboutText.None? <==> page.aboutText.None?
  {
    Page(
      SetText(page.heroTitle, Present(content, "heroTitle")),
      SetText(page.heroSubtitle, Present(content, "heroSubtitle")),
      SetText(page.heroDescription, Present(content, "heroDescription")),
      SetText(page.aboutText, Present(content, "aboutText")),
      Retarget(Retarget(page.links, "tel:", Present(content, "phone")), "mailto:", Present(content, "email")),
      ReplaceAddress(page.contactParagraphs, Present(content, "address")))
  }

  /** A text is overwritten only when the page has its element and the content field is
      present and non-empty, and then it becomes the field's value; otherwise it is kept. */
  lemma UpdateOverwritesOnlyFilled(page: Page, content: Fields)
    ensures var r := UpdateSiteContent(page, content);
      && (r.heroTitle != page.heroTitle ==> page.heroTitle.Some? && Lookup(content, "heroTitle").Some?)
      && (Lookup(content, "heroTitle").None? || Lookup(content, "heroTitle") == Some("") ==> r.heroTitle == page.heroTitle)
      && (page.heroTitle.Some? && Filled(Lookup(content, "heroTitle")) ==> r.heroTitle == Lookup(content, "heroTitle"))
      && (!Filled(Lookup(content, "heroSubtitle")) ==> r.heroSubtitle == page.heroSubtitle)
      && (page.heroSubtitle.Some? && Filled(Lookup(content, "heroSubtitle")) ==> r.heroSubtitle == Lookup(content, "heroSubtitle"))
      && (!Filled(Lookup(content, "heroDescription")) ==> r.heroDescription == page.heroDescription)
      && (page.heroDescription.Some? && Filled(Lookup(content, "heroDescription")) ==> r.heroDescription == Lookup(content, "heroDescription"))
      && (Lookup(content, "aboutText").None? || Lookup(content, "aboutText") == Some("") ==> r.aboutText == page.aboutText)
      && (page.aboutText.Some? && Filled(Lookup(content, "aboutText")) ==> r.aboutText == Lookup(content, "aboutText"))
      && (forall i | 0 <= i < |page.links| ::
            !StartsWith(page.links[i].href, "tel:") && !StartsWith(page.links[i].href, "mailto:") ==>
            r.links[i] == page.links[i])
  {
    var phone := Present(content, "phone");
    var tel := Retarget(page.links, "tel:", phone);
    forall i | 0 <= i < |page.links| && !StartsWith(page.links[i].href, "tel:")
      ensures tel[i] == page.links[i]
    {
    }
  }

  /** `updateContactInfo` after both link passes: every `tel:` link shows and dials the phone,
      every `mailto:` link shows and sends to the email, every paragraph mentioning "Novara"
      shows the address, each only when its field is filled; everything else is kept. */
  lemma UpdateContactInfoResults(page: Page, content: Fields)
    ensures var r := UpdateSiteContent(page, content);
      var phone, email, address := Lookup(content, "phone"), Lookup(content, "email"), Lookup(content, "address");
      && (forall i | 0 <= i < |page.links| && StartsWith(page.links[i].href, "tel:") ::
            r.links[i] == if Filled(phone) then Link("tel:" + phone.value, phone.value) else page.links[i])
      && (forall i | 0 <= i < |page.links| && StartsWith(page.links[i].href, "mailto:") ::
            r.links[i] == if Filled(email) then Link("mailto:" + email.value, email.value) else page.links[i])
      && (forall i | 0 <= i < |page.contactParagraphs| ::
            r.contactParagraphs[i] ==
              if Filled(address) && Contains(page.contactParagraphs[i], "Novara") then address.value
              else page.contactParagraphs[i])
  {
    var phone, email := Present(content, "phone"), Present(content, "email");
    var tel := Retarget(page.links, "tel:", phone);
    var r := UpdateSiteContent(page, content);
    forall i | 0 <= i < |page.links| && StartsWith(page.links[i].href, "tel:")
      ensures r.links[i] == if phone.Some? then Link("tel:" + phone.value, phone.value) else page.links[i]
    {
      assert tel[i].href[0] == 't';
      assert !StartsWith(tel[i].href, "mailto:");
    }
    forall i | 0 <= i < |page.links| && StartsWith(page.links[i].href, "mailto:")
      ensures r.links[i] == if email.Some? then Link("mailto:" + email.value, email.value) else page.links[i]
    {
      assert page.links[i].href[0] == 'm';
      assert tel[i] == page.links[i];
    }
  }

  /** With no content at all, the page is left as it was. */
  lemma UpdateWithEmptyContent(page: Page)
    ensures UpdateSiteContent(page, []) == page
  {
  }

  /** A retargeted link with a fresh prefix keeps that prefix, so retargeting again with the
      same value changes nothing. */
  lemma RetargetIdempotent(links: seq<Link>, prefix: string, value: Option<string>)
    ensures Retarget(Retarget(links, prefix, value), prefix, value) == Retarget(links, prefix, value)
  {
    if value.Some? {
      var r := Retarget(links, prefix, value);
      forall i | 0 <= i < |links| ensures Retarget(r, prefix, value)[i] == r[i] {
        if StartsWith(links[i].href, prefix) {
          assert r[i].href[..|prefix|] == prefix;
        }
      }
    }
  }

  /** Applying the same content twice is applying it once. */
  lemma UpdateIdempotent(page: Page, content: Fields)
    ensures UpdateSiteContent(UpdateSiteContent(page, content), content) == UpdateSiteContent(page, content)
  {
    var phone, email := Present(content, "phone"), Present(content, "email");
    var tel := Retarget(page.links, "tel:", phone);
    var mail := Retarget(tel, "mailto:", email);
    var tel2 := Retarget(mail, "tel:", phone);
    RetargetIdempotent(tel, "mailto:", email);
    forall i | 0 <= i < |page.links| ensures tel2[i] == mail[i] && Retarget(tel2, "mailto:", email)[i] == mail[i] {
      if email.Some? && StartsWith(tel[i].href, "mailto:") {
        assert mail[i].href[0] == 'm';
      }
      assert mail == Retarget(mail, "mailto:", email);
    }
    var address := Present(content, "address");
    var ps := ReplaceAddress(page.contactParagraphs, address);
    forall i | 0 <= i < |ps| ensures ReplaceAddress(ps, address)[i] == ps[i] {}
  }

  // ---------------------------------------------------------------------------------------
  // Update messages

  /** The `data` of a received message event, when it is an object. */
  datatype MessageData = MessageData(kind: Option<string>, payload: Option<WebsiteData>)

  /** `event.data && event.data.type === 'WEBSITE_UPDATE'`. */
  predicate IsWebsiteUpdate(eventData: Option<MessageData>) {
    eventData.Some? && eventData.value.kind == Some("WEBSITE_UPDATE")
  }

  /** `handleWebsiteUpdate`'s effect on the page: the content update (the gallery, services
      and theme are redrawn without touching these parts). A message without data throws
      inside the handler's `try` and changes nothing. */
  function HandleWebsiteUpdate(page: Page, data: Option<WebsiteData>): (r: Page)
    ensures data.None? ==> r == page
    ensures data.Some? ==> r == UpdateSiteContent(page, data.value.content)
  {
    match data
    case Some(d) => UpdateSiteContent(page, d.content)
    case None => page
  }

  /** The window's message listener: anything but a website update is ignored. */
  function OnMessage(page: Page, eventData: Option<MessageData>): (r: Page)
    ensures !IsWebsiteUpdate(eventData) ==> r == page
    ensures IsWebsiteUpdate(eventData) ==> r == HandleWebsiteUpdate(page, eventData.value.payload)
  {
    if IsWebsiteUpdate(eventData) then HandleWebsiteUpdate(page, eventData.value.payload) else page
  }

  /** `loadDynamicContent`: the copy kept for the public site, if any, is applied. */
  function LoadDynamicContent(page: Page, mainWebsiteData: Option<WebsiteData>): (r: Page)
    ensures mainWebsiteData.None? ==> r == page
  {
    HandleWebsiteUpdate(page, mainWebsiteData)
  }

  /** `initGallery`: the stored gallery is removed and replaced by the seed list, whatever it
      held before, so uploads stored by the admin panel are lost on every visit. */
  method InitGallery(store: LocalStore) returns (shown: seq<GalleryItem>)
    modifies store`gallery
    ensures store.gallery == Some(CreateGalleryData()) && shown == CreateGalleryData()
    ensures |shown| == 73
  {
    store.gallery := None;
    shown := CreateGalleryData();
    store.gallery := Some(shown);
  }
}
