/** The persistent entities the transfer graph is built from: bus stops and transit lines ("paths"). */
module Entities {

  datatype Option<T> = None | Some(value: T)

  /** A bus stop; latitude and longitude only reach the model through the distance function. */
  datatype Stop = Stop(id: int, name: string, lat: real, lon: real)

  /** One direction of a route: its identity, the identity of its route and its ordered stops ("way"). */
  datatype Path = Path(id: int, routeId: int, way: seq<Stop>)

  /** Name of the placeholder stops that transfer analysis skips (TransportConst.MOCK_BS). */
  const MockBs: string := "mock"
}
