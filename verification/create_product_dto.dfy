/** Input shapes and the checks the validation layer in front of the store
    runs on them (src/products/dto/create-product.dto.ts). In this model the store
    never checks them. */
module Dto {
  import opened Wrappers

  /** All four fields are required. */
  datatype CreateProductDto = CreateProductDto(
    name: string,
    description: string,
    price: real,
    stock: real)

  /** The partial update: every field optional. */
  datatype UpdateProductDto = UpdateProductDto(
    name: Option<string>,
    description: Option<string>,
    price: Option<real>,
    stock: Option<real>)

  /** `@IsNotEmpty()` on a string: not the empty string. */
  predicate IsNotEmpty(s: string) {
    s != ""
  }

  /** `@MinLength(n)`. */
  predicate MinLength(s: string, n: nat) {
    |s| >= n
  }

  /** `@IsPositive()`: strictly greater than zero. */
  predicate IsPositive(x: real) {
    x > 0.0
  }

  /** The three decorators on `name`. */
  predicate ValidName(name: string) {
    IsNotEmpty(name) && MinLength(name, 2)
  }

  /** A create input that passes validation. `description` only has to be a
      string, which its type already guarantees, so it may be empty. */
  predicate ValidCreate(dto: CreateProductDto)
    ensures ValidCreate(dto) <==> |dto.name| >= 2 && dto.price > 0.0 && dto.stock > 0.0
  {
    ValidName(dto.name) && IsPositive(dto.price) && IsPositive(dto.stock)
  }

  /** An update input that passes validation: each present field obeys the
      constraint of the same field on create. */
  predicate ValidUpdate(patch: UpdateProductDto)
    ensures ValidUpdate(patch) <==>
              && (patch.name.Some? ==> |patch.name.value| >= 2)
              && (patch.price.Some? ==> patch.price.value > 0.0)
              && (patch.stock.Some? ==> patch.stock.value > 0.0)
  {
    && (patch.name.Some? ==> ValidName(patch.name.value))
    && (patch.price.Some? ==> IsPositive(patch.price.value))
    && (patch.stock.Some? ==> IsPositive(patch.stock.value))
  }

  /** A name is valid exactly when it has at least two characters: the length
      bound already rules out the empty name. */
  lemma ValidNameIsMinLength(name: string)
    ensures ValidName(name) <==> |name| >= 2
  {
  }
}
