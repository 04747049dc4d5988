/** The field vocabulary shared by the schema parser, the dialects, the migrator
    and the document engine (schema/types.go). */
module SchemaTypes {

  datatype FieldType =
    | StringField | IntField | Int64Field | Float64Field | BoolField
    | DateField | DateTimeField | CurrencyField | TextField | RichTextField
    | LinkField | DynamicLinkField | AttachmentField | JSONField | ChildTableField

  /** The attributes of a compiled field that the modelled code reads. */
  datatype Field = Field(
    name: string,
    dbColumn: string,
    fieldType: FieldType,
    required: bool,
    unique: bool,
    searchable: bool)
}
