/** The service catalog record (hotel.services): a priced item that an
    invoice can bill only when it is linked to a sellable product and an
    income account. It carries no behaviour of its own. */
module Services {
  import opened Base

  /** `id` is the record's identity: two services are the same record
      exactly when their ids are equal. */
  datatype Service = Service(
    id: nat,
    name: string,
    price: int,
    product: Option<nat>,
    incomeAccount: Option<nat>)
}
