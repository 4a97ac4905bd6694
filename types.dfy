/** Records shared by the race store, the race page and the rendering
    components: the shapes of the GraphQL results (race with its two rockets,
    the rocket list) and of the per-rocket progress entry kept in the store. */
module Types {

  datatype Option<+T> = None | Some(value: T)

  /** A rocket as the rocket-list query returns it. */
  datatype Rocket = Rocket(id: string, name: string, description: string, image: string)

  /** One entry of the store's progress map: last reported percentage and explosion flag. */
  datatype RocketProgress = RocketProgress(progress: int, exploded: bool)

  /** A participant inside a race record: `{ id, progress, exploded }`. */
  datatype RaceRocket = RaceRocket(id: string, progress: int, exploded: bool)

  /** A race record as the start mutation and the race query return it; `winner`
      is a rocket id, or absent while the race runs or when both rockets exploded. */
  datatype Race = Race(id: string, rocket1: RaceRocket, rocket2: RaceRocket, winner: Option<string>)

  /** JavaScript truthiness of a `string | null` value: present and non-empty. */
  predicate Truthy(s: Option<string>)
  {
    s.Some? && s.value != ""
  }
}
