/** The product record: how the store holds it and how the API returns it. */
module Products {
  import opened Ascii
  import opened ObjectIds

  datatype Category = Category(mainCategory: string, subCategories: seq<string>)

  datatype BasicMetadata = BasicMetadata(
    price: real,
    category: Category,
    brand: string,
    availabilityStatus: string)

  /** `attributes` is a free-form dictionary; its values are kept as text. */
  datatype DescriptiveMetadata = DescriptiveMetadata(
    description: string,
    attributes: map<string, string>,
    tags: seq<string>,
    features: seq<string>)

  /** A stored document, identified by an object id. */
  datatype Document = Document(
    id: ObjectId,
    slug: string,
    itemName: string,
    basicMetadata: BasicMetadata,
    descriptiveMetadata: DescriptiveMetadata)

  /** A document as it is sent back: the same record with its id as text. */
  datatype Product = Product(
    id: string,
    slug: string,
    itemName: string,
    basicMetadata: BasicMetadata,
    descriptiveMetadata: DescriptiveMetadata)

  /** Replaces the document's object id by its text form; nothing else changes,
      and the text names the stored id again. */
  function Render(d: Document): (p: Product)
    ensures p.slug == d.slug && p.itemName == d.itemName
    ensures p.basicMetadata == d.basicMetadata && p.descriptiveMetadata == d.descriptiveMetadata
    ensures IsValid(p.id) && Parse(p.id) == d.id
    ensures forall i :: 0 <= i < |p.id| ==> !IsUpper(p.id[i])
  {
    ParseOfStr(d.id);
    Product(Str(d.id), d.slug, d.itemName, d.basicMetadata, d.descriptiveMetadata)
  }

  function RenderAll(docs: seq<Document>): (ps: seq<Product>)
    ensures |ps| == |docs|
    ensures forall k :: 0 <= k < |docs| ==> ps[k] == Render(docs[k])
  {
    seq(|docs|, k requires 0 <= k < |docs| => Render(docs[k]))
  }
}
