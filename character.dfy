/**
 * The records decoded from the character endpoint (model/Character.kt).
 * They are immutable values; the default values of the Kotlin constructors
 * are the default values of the datatype constructors below, so a field
 * missing from the payload gets the same value as in the source.
 */
module Model {
  import opened Wrappers

  /** One page of the character list: pagination data and the page's characters. Both are required. */
  datatype CharacterResponse = CharacterResponse(info: Info, results: seq<Character>)

  /** Pagination data: `count` and `pages` are required, the neighbour links default to null. */
  datatype Info = Info(count: int, pages: int, next: Option<string> := None, prev: Option<string> := None)

  /**
   * A character. `kind` is the source's `type` field (a reserved word here);
   * it and `gender` default to the empty string, `episode` to the empty list.
   */
  datatype Character = Character(
    id: int,
    name: string,
    status: string,
    species: string,
    image: string,
    origin: LocationRef,
    location: LocationRef,
    kind: string := "",
    gender: string := "",
    episode: seq<string> := [])

  /** A reference to a place: `name` is required, `url` defaults to the empty string. */
  datatype LocationRef = LocationRef(name: string, url: string := "")

  /** An `Info` built from its required fields has no neighbour links. */
  lemma InfoDefaults(count: int, pages: int)
    ensures Info(count, pages).next == None && Info(count, pages).prev == None
    ensures Info(count, pages) == Info(count, pages, None, None)
  {
  }

  /** A `Character` built from its required fields has no type, no gender and no episodes. */
  lemma CharacterDefaults(id: int, name: string, status: string, species: string, image: string,
                          origin: LocationRef, location: LocationRef)
    ensures var c := Character(id, name, status, species, image, origin, location);
      c.kind == "" && c.gender == "" && c.episode == []
  {
  }

  /** A `LocationRef` built from its name has an empty URL. */
  lemma LocationRefDefaults(name: string)
    ensures LocationRef(name).url == "" && LocationRef(name).name == name
  {
  }
}
