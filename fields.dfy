/** Attribute fields as the provider publishes them and the iterator reads them. */
module Fields {

  /** The QVariant type of a field; `Other` stands for every type the core does not name. */
  datatype AttrType = Int | Double | String | Other

  datatype Field = Field(name: string, attrType: AttrType)
}
