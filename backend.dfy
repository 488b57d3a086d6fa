/** The records the remote catalog API exchanges (the generated backend.d.ts). */
module Backend {
  import opened Wrappers

  type ProductId = string
  type Category = string
  type ImageUrl = string

  /** Time values are nanosecond counts (bigint). */
  type Time = int

  datatype Specifications = Specifications(
    weight: string,
    power: string,
    additional: Option<string>,
    dimensions: string)

  datatype Product = Product(
    id: ProductId,
    specifications: Specifications,
    name: string,
    createdAt: Time,
    description: string,
    updatedAt: Time,
    category: Category,
    price: int,
    images: seq<ImageUrl>)

  datatype UserProfile = UserProfile(name: string)
}
