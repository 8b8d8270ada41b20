/** The record types the listing core exchanges with the backend canister
    (src/frontend/src/backend.d.ts). */
module Backend {

  /** A listing as submitted by the create/edit form. `price` is a JavaScript
      number; it is modelled as a real (NaN and the infinities are not modelled). */
  datatype ListingInput = ListingInput(
    title: string,
    contactInfo: string,
    unit: string,
    description: string,
    category: string,
    price: real,
    location: string,
    images: seq<string>)

  /** A stored listing. `id` and `createdAt` are bigints; `owner` is an opaque
      principal, modelled by its textual form. */
  datatype Listing = Listing(
    id: nat,
    title: string,
    contactInfo: string,
    owner: string,
    createdAt: int,
    unit: string,
    description: string,
    isActive: bool,
    category: string,
    price: real,
    location: string,
    images: seq<string>)
}
