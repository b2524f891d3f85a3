/**
 * The request bodies of the category endpoints and the checks the validation
 * pipe applies to them before the service sees them. A field the body leaves
 * out is `None`; the `type` enum is the datatype `CategoryType`, so only
 * 'income' and 'expense' can be expressed.
 */
module CategoryDto {
  import opened Wrappers
  import opened Entities

  datatype CreateCategoryDto = CreateCategoryDto(
    name: string,
    kind: CategoryType,
    icon: Option<string>,
    color: Option<string>,
    sortOrder: Option<int>)

  /** There is no `type` field: an update cannot even express a change of type. */
  datatype UpdateCategoryDto = UpdateCategoryDto(
    name: Option<string>,
    icon: Option<string>,
    color: Option<string>,
    sortOrder: Option<int>)

  const MaxNameLength: nat := 100
  const MaxIconLength: nat := 50
  const MaxColorLength: nat := 20

  /** name and type are required; name at most 100 characters, icon 50, color 20. */
  predicate ValidCreateCategory(d: CreateCategoryDto) {
    && |d.name| <= MaxNameLength
    && OptionalFits(d.icon, MaxIconLength)
    && OptionalFits(d.color, MaxColorLength)
  }

  /** Every field is optional; the supplied ones have the create bounds. */
  predicate ValidUpdateCategory(d: UpdateCategoryDto) {
    && OptionalFits(d.name, MaxNameLength)
    && OptionalFits(d.icon, MaxIconLength)
    && OptionalFits(d.color, MaxColorLength)
  }

  const EmptyUpdate: UpdateCategoryDto := UpdateCategoryDto(None, None, None, None)

  /** An update that supplies no field at all is accepted. */
  lemma EmptyUpdateIsValid()
    ensures ValidUpdateCategory(EmptyUpdate)
  {
  }

  /** The validator's bounds are the category columns' widths, so a valid body always fits its row. */
  lemma ValidCreateFitsColumns(d: CreateCategoryDto)
    requires ValidCreateCategory(d)
    ensures |d.name| <= NameWidth && OptionalFits(d.icon, IconWidth) && OptionalFits(d.color, ColorWidth)
  {
  }
}
