/** The records the admin panel edits and the public site renders. JSON encoding is taken as
    the identity: a stored key holds the record itself. */
module Entities {
  import opened Wrappers

  /** A record id. Seed gallery items carry numbers, everything else strings; the scripts
      compare ids with `===`, so a number never equals a string. */
  datatype Id = NumId(n: int) | StrId(s: string)

  /** A plain object of string fields (form data, site content, theme settings), as its
      entries in insertion order. */
  type Fields = seq<(string, string)>

  /** `obj[key]`: the value of the first entry named `key`, if any. */
  function Lookup(fields: Fields, key: string): Option<string> {
    if fields == [] then None
    else if fields[0].0 == key then Some(fields[0].1)
    else Lookup(fields[1..], key)
  }

  datatype Service = Service(id: Id, title: string, description: string, icon: string, features: seq<string>)

  datatype Dimensions = Dimensions(width: nat, height: nat)

  /** The extra fields an uploaded image carries (seed items have none of them). */
  datatype UploadInfo = UploadInfo(
    name: string, originalSize: nat, compressedSize: nat,
    original: Dimensions, compressed: Dimensions, thumbnail: Dimensions)

  /** A gallery entry. `alt` is absent on freshly uploaded images until they are edited. */
  datatype GalleryItem = GalleryItem(
    id: Id, src: string, thumbnail: string, alt: Option<string>, title: string,
    category: string, uploadDate: string, upload: Option<UploadInfo>)

  /** Video metadata; width and height are the form's text values. */
  datatype Video = Video(id: Id, title: string, width: string, height: string, uploadDate: string)

  /** The aggregate a publish step writes. The publish API stamps it with `lastModified`;
      the admin panel's own publisher stamps `lastUpdated` instead, and that is the field the
      public site's update check reads. `generatedAt` is present only on the copy kept for the
      public site. */
  datatype WebsiteData = WebsiteData(
    content: Fields, services: seq<Service>, gallery: seq<GalleryItem>, videos: seq<Video>,
    settings: Fields, lastModified: Option<string>, lastUpdated: Option<string>,
    generatedAt: Option<string>)

  /** What a generated download file holds: a JSON dump of a collection or stylesheet text. */
  datatype FileContent = GalleryJson(items: seq<GalleryItem>) | ServicesJson(list: seq<Service>) | CssText(css: string)

  datatype GeneratedFile = GeneratedFile(filename: string, content: FileContent, createdAt: string)

  function ServiceId(s: Service): Id { s.id }
  function GalleryId(g: GalleryItem): Id { g.id }
  function VideoId(v: Video): Id { v.id }
  function FileName(f: GeneratedFile): string { f.filename }
}
