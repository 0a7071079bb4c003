/** The two enumerations of the simulation. */
module SimEnums {

  /** Position of a mining truck in its closed loop. */
  datatype TruckState =
    | OnRoadToMine    // on the road to the mine
    | AtMine          // mining at the site
    | OnRoadToUnload  // on the road to an unloading station
    | Unloading       // waiting in, or served by, a station queue

  /** State of an unloading station; the simulation never leaves Unoccupied. */
  datatype UnloadStationState = Unoccupied | Occupied
}
