/** Records that travel from the batch builder to the browser client. */
module Records {

  /** A latitude or longitude in degrees; its floating-point behaviour is not modelled. */
  type Coord = real

  /** The value a chunk file holds for one postcode: `{substation_id, lat, lng}`. */
  datatype Entry = Entry(substationId: string, lat: Coord, lng: Coord)
}
