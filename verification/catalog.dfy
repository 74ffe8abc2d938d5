/**
 * The recipe catalog: a static, ordered sequence of recipes that every page
 * reads and none changes. The bundled data set is not part of this model;
 * every operation takes the catalog as a parameter.
 */
module Catalog {

  /** One recipe of the catalog. */
  datatype Recipe = Recipe(
    id: int,
    name: string,
    description: string,
    image: string,
    cookTime: string,
    servings: int,
    difficulty: string,
    ingredients: seq<string>,
    instructions: seq<string>)
}
