/** The built-in gallery: a fixed list of photographs, each given a category and a title by
    its position. The admin panel and the public site each carry a copy of this generator;
    both build the same data, the public site's adding console logging. */
module GallerySeed {
  import opened Wrappers
  import opened Text
  import opened Entities
  import Keyed

  /** The photographs shipped under `images/gallery/`, in list order. */
  const ImageFiles: seq<string> := [
    "20250929_141120.jpg", "20250929_134939.jpg", "20250926_154933.jpg", "20250929_134536.jpg",
    "20250929_133129.jpg", "20250929_135150.jpg", "20250929_141758.jpg", "20250929_135151.jpg",
    "20250926_154942.jpg", "20250929_141110.jpg", "20250929_135158.jpg", "20250929_141757.jpg",
    "20250925_140007.jpg", "20250926_155110.jpg", "20250929_133602.jpg", "20250926_154936.jpg",
    "20250925_094327.jpg", "20250925_140003.jpg", "20250926_152618.jpg", "20250929_134952.jpg",
    "20250929_141457.jpg", "20250929_135149.jpg", "20250929_135255.jpg", "20250929_133601.jpg",
    "20250929_134915.jpg", "20250926_152606.jpg", "20250929_135332.jpg", "20250929_133610.jpg",
    "20250926_152554.jpg", "20250929_134353.jpg", "20250925_140000.jpg", "20250929_135148.jpg",
    "20250929_141435.jpg", "20250925_134037.jpg", "20250926_152546.jpg", "20250929_135153.jpg",
    "20250926_154901.jpg", "20250925_134033.jpg", "20250929_135258.jpg", "20250929_141121.jpg",
    "20250929_133559.jpg", "20250929_134631.jpg", "20250929_134958.jpg", "20250926_154940.jpg",
    "20250929_135330.jpg", "20250929_135259.jpg", "20250929_135302.jpg", "20250929_135157.jpg",
    "20250929_135147.jpg", "20250929_133553.jpg", "20250929_141756.jpg", "20250929_133612.jpg",
    "20250929_133542.jpg", "20250926_154903.jpg", "20250925_140005.jpg", "20250929_135300.jpg",
    "20250929_133608.jpg", "20250929_141118.jpg", "20250929_134055.jpg", "20250929_135256.jpg",
    "20250929_135029.jpg", "20250929_135145.jpg", "20250929_135323.jpg", "20250929_133138.jpg",
    "20250929_133139.jpg", "20250925_134034.jpg", "20250926_152550.jpg", "20250929_141436.jpg",
    "20250929_141437.jpg", "20250925_140006.jpg", "20250929_133535.jpg", "20250925_134110.jpg",
    "20250929_141441.jpg"
  ]

  const Categories: seq<string> := ["giardinaggio", "pulizie", "facchinaggio", "manutenzione"]

  /** The five titles of each category. */
  function Titles(category: string): (r: seq<string>)
    ensures |r| == 5
  {
    match category
    case "giardinaggio" => ["Progetto Giardino", "Cura Prato", "Potatura Alberi", "Sistemazione Aiuole", "Manutenzione Verde"]
    case "pulizie" => ["Pulizie Casa", "Sanificazione", "Pulizie Ufficio", "Lavaggio Pavimenti", "Pulizie Approfondite"]
    case "facchinaggio" => ["Trasloco", "Trasporto Mobili", "Carico Merci", "Servizi Logistici", "Facchinaggio"]
    case _ => ["Riparazioni", "Lavori Edili", "Manutenzione Casa", "Piccoli Lavori", "Sistemazioni"]
  }

  /** The record for the file at position `index`. */
  function SeedItem(index: nat, filename: string): (r: GalleryItem)
    ensures r.id == NumId(index + 1) && r.category == Categories[index % 4]
    ensures r.title in Titles(r.category) && r.alt == Some(r.category + " - " + r.title)
    ensures r.src == "images/gallery/" + filename && r.upload.None?
  {
    var category := Categories[index % |Categories|];
    var title := Titles(category)[index % 5];
    GalleryItem(
      NumId(index + 1), "images/gallery/" + filename,
      "images/thumbnails/" + ReplaceFirst(filename, ".jpg", "_thumb.jpg"),
      Some(category + " - " + title), title, category, "30/09/2025", None)
  }

  /** `createGalleryData`: one record per shipped file, in file order. */
  function CreateGalleryData(): (r: seq<GalleryItem>)
    ensures |r| == |ImageFiles| == 73
  {
    seq(|ImageFiles|, i requires 0 <= i < |ImageFiles| => SeedItem(i, ImageFiles[i]))
  }

  /** Item i is the record of file i: id i+1, category cycling through the four with period
      4, title cycling through its category's five with period 5, source under
      `images/gallery/`, alt text "category - title", and no upload details. */
  lemma SeedItemAt(i: nat)
    requires i < |ImageFiles|
    ensures var item := CreateGalleryData()[i];
      && item.id == NumId(i + 1)
      && item.category == Categories[i % 4]
      && item.title == Titles(Categories[i % 4])[i % 5]
      && item.src == "images/gallery/" + ImageFiles[i]
      && item.alt == Some(item.category + " - " + item.title)
      && item.uploadDate == "30/09/2025" && item.upload.None?
  {
  }

  /** The seed ids are the numbers 1..73 in order, so no two items share one. */
  lemma SeedIdsUnique()
    ensures Keyed.UniqueKeys(CreateGalleryData(), GalleryId)
    ensures forall j | 0 <= j < |CreateGalleryData()| :: CreateGalleryData()[j].id == NumId(j + 1)
  {
    var r := CreateGalleryData();
    forall i, j | 0 <= i < j < |r| ensures GalleryId(r[i]) != GalleryId(r[j]) {
      assert r[i].id.n == i + 1 && r[j].id.n == j + 1;
    }
  }

  /** Every seed item belongs to one of the four categories and carries one of its titles. */
  lemma SeedCategoriesKnown()
    ensures forall j | 0 <= j < |CreateGalleryData()| ::
      CreateGalleryData()[j].category in Categories &&
      CreateGalleryData()[j].title in Titles(CreateGalleryData()[j].category)
  {
    var r := CreateGalleryData();
    forall j | 0 <= j < |r| ensures r[j].category in Categories && r[j].title in Titles(r[j].category) {
      assert r[j].category == Categories[j % 4];
    }
  }

  /** The first seed item is the garden project with id 1. */
  lemma FirstSeedItem()
    ensures var item := CreateGalleryData()[0];
      && item.id == NumId(1) && item.category == "giardinaggio" && item.title == "Progetto Giardino"
      && item.alt == Some("giardinaggio - Progetto Giardino")
  {
    assert CreateGalleryData()[0] == SeedItem(0, ImageFiles[0]);
    FirstRecord(ImageFiles[0]);
  }

  lemma FirstRecord(filename: string)
    ensures var item := SeedItem(0, filename);
      && item.id == NumId(1) && item.category == "giardinaggio" && item.title == "Progetto Giardino"
      && item.alt == Some("giardinaggio - Progetto Giardino")
  {
    assert Categories[0] == "giardinaggio";
    assert "giardinaggio" + " - " + "Progetto Giardino" == "giardinaggio - Progetto Giardino";
  }

  /** For a file named `stem.jpg` whose stem has no dot, the thumbnail path is
      `images/thumbnails/stem_thumb.jpg`: the first ".jpg" is the extension. */
  lemma SeedThumbnail(index: nat, stem: string)
    requires '.' !in stem
    ensures SeedItem(index, stem + ".jpg").thumbnail == "images/thumbnails/" + stem + "_thumb.jpg"
  {
    var f := stem + ".jpg";
    assert OccursAt(f, ".jpg", |stem|) by {
      assert f[|stem|..|stem| + 4] == ".jpg";
    }
    forall j | 0 <= j < |stem| ensures !OccursAt(f, ".jpg", j) {
      assert f[j] == stem[j] && stem[j] in stem;
    }
    assert IndexOf(f, ".jpg") == |stem|;
    assert f[..|stem|] == stem && f[|stem| + 4..] == [];
  }
}
