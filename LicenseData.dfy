/**
 * The license record of `data.go` and the product of `product.go`. Times are
 * instants on one integer clock; JSON payload values are kept as strings.
 */
module LicenseData {
  import opened Wrappers

  /** A `map[string]interface{}` payload. */
  type Payload = map<string, string>

  /** A class of child licenses and how many may be issued. */
  datatype Template = Template(count: int, payload: Option<Payload>)

  /** `Metadata`: a nil `Pack` map and an empty one are both the empty map. */
  datatype Metadata = Metadata(id: string, activatesOn: int, expiresOn: int, pack: map<string, Template>)

  /** `Data`: each pointer or map field may be nil. */
  datatype Data = Data(meta: Option<Metadata>, payload: Option<Payload>)

  /** `Product`: a product that uses the licensing scheme. */
  datatype Product = Product(id: string, name: string, organization: string)
}
