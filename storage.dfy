/** The browser's local storage, one field per key the scripts use; `None` is an absent key. */
module Storage {
  import opened Wrappers
  import opened Entities

  class LocalStore {
    var siteContent: Option<Fields>
    var services: Option<seq<Service>>
    var gallery: Option<seq<GalleryItem>>
    var videos: Option<seq<Video>>
    var siteSettings: Option<Fields>
    var publishedWebsiteData: Option<WebsiteData>
    var mainWebsiteData: Option<WebsiteData>
    var generatedFiles: Option<seq<GeneratedFile>>
    /** Held as text, as `Date.getTime().toString()` wrote it. */
    var lastUpdateCheck: Option<string>

    /** A browser profile that has never visited the site. */
    constructor ()
      ensures siteContent == None && services == None && gallery == None && videos == None
      ensures siteSettings == None && publishedWebsiteData == None && mainWebsiteData == None
      ensures generatedFiles == None && lastUpdateCheck == None
    {
      siteContent, services, gallery, videos := None, None, None, None;
      siteSettings, publishedWebsiteData, mainWebsiteData := None, None, None;
      generatedFiles, lastUpdateCheck := None, None;
    }
  }
}
