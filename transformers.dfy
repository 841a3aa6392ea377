/** The conversion of a `Products` table row into the record the product table displays. */
module DataTransformers {
  import opened Wrappers
  import opened Strings

  /** A row id as the backend returns it: a string or a number. */
  datatype RowId = TextId(text: string) | NumericId(value: int)

  /**
   * A `Products` row. Every column is optional: the row is handed over by a
   * cast, so a column the declared type calls required may still be missing.
   */
  datatype DbProduct = DbProduct(
    id: RowId,
    productName: Option<string>,
    productDescription: Option<string>,
    productImage: Option<string>,
    createdAt: Option<string>,
    lastUpdated: Option<string>)

  /** The product as the table shows it. */
  datatype UiProduct = UiProduct(
    id: string,
    name: string,
    description: string,
    imageUrl: Option<string>,
    categoryName: string,
    createdAt: string,
    lastUpdated: string)

  /** `String(id)`: a text id as it is, a numeric id in decimal, which reads back to the number. */
  function IdString(id: RowId): (r: string)
    ensures id.TextId? ==> r == id.text
    ensures id.NumericId? ==> IsDecimal(r) && ParseInt(r) == id.value
  {
    match id
    case TextId(t) => t
    case NumericId(n) => IntToStringInjective(n); IntToString(n)
  }

  /** `dbToUiProduct`: field renaming with the `||` fallbacks of the source. */
  function ToUiProduct(p: DbProduct): (u: UiProduct)
    ensures u.id == IdString(p.id)
    ensures Truthy(p.productName) ==> Some(u.name) == p.productName
    ensures !Truthy(p.productName) ==> u.name == ""
    ensures Truthy(p.productDescription) ==> Some(u.description) == p.productDescription
    ensures !Truthy(p.productDescription) ==> u.description == ""
    ensures u.imageUrl.Some? <==> Truthy(p.productImage)
    ensures u.imageUrl.Some? ==> u.imageUrl == p.productImage
    ensures u.categoryName == ""
    ensures Truthy(p.createdAt) ==> Some(u.createdAt) == p.createdAt
    ensures !Truthy(p.createdAt) ==> u.createdAt == ""
    ensures Truthy(p.lastUpdated) ==> Some(u.lastUpdated) == p.lastUpdated
    ensures !Truthy(p.lastUpdated) ==> u.lastUpdated == u.createdAt
    ensures u.lastUpdated == "" <==> !Truthy(p.lastUpdated) && !Truthy(p.createdAt)
  {
    UiProduct(
      IdString(p.id),
      OrElse(p.productName, ""),
      OrElse(p.productDescription, ""),
      if Truthy(p.productImage) then p.productImage else None,
      "",
      OrElse(p.createdAt, ""),
      OrElse(p.lastUpdated, OrElse(p.createdAt, "")))
  }
}
