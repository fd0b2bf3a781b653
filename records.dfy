/**
 * The restaurant record as the guide sees it, and the parts of the
 * Restaurant class (not part of this model) that the guide calls: the
 * title-casing and price formatting used for display, and the answers and
 * save result of an `add`.
 */
module Records {

  /** A saved restaurant: its name, cuisine and price, as the text read back from the file. */
  datatype Restaurant = Restaurant(name: string, cuisine: string, price: string)

  /** `String#titleize` and `Restaurant#formatted_price`, whose code is outside this model. */
  datatype Formatter = Formatter(titleize: string -> string, formattedPrice: Restaurant -> string)

  /** What `Restaurant.build_from_questions` built and whether `save` reported success. */
  datatype AddReply = AddReply(record: Restaurant, saved: bool)
}
