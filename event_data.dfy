/** The entities of one birthday event as the screens use them: guests and wishlist items. */
module EventData {
  /** A guest; `status` is `'confirmed'`, `'pending'`, `'declined'` or anything else the data holds. */
  datatype Guest = Guest(id: string, name: string, email: string, status: string)

  /** The add-gift form: `{url, title, description, price}`. */
  datatype Form = Form(url: string, title: string, description: string, price: string)

  /** `{id, ...formData, selectedBy, createdAt}`: `selectedBy` lists the ids of the guests who chose the gift. */
  datatype Item = Item(id: string, form: Form, selectedBy: seq<string>, createdAt: string)
}
