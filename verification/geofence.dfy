/** The geofence entity (`GeofenceArea` / `GeofenceObj` in the source): an id,
    a centre, an inner "zone" circle, an outer "wifi" circle and a note, plus
    the monitored region each circle becomes. Coordinates and radii are only
    ever copied, so they are kept as opaque reals. */
module GeofenceModel {

  /** `GeofenceType`: the inner circle is `zone`, the outer one `wifi`. */
  datatype Kind = Zone | Wifi

  /** The raw value the kind is stored under. */
  function RawValue(k: Kind): (raw: string)
    ensures raw == "zone" || raw == "wifi"
    ensures KindFromRaw(raw) == k
  {
    match k
    case Zone => "zone"
    case Wifi => "wifi"
  }

  /** `GeofenceType(rawValue:) ?? .wifi`: an unknown raw value decodes as wifi. */
  function KindFromRaw(raw: string): (k: Kind)
    ensures k == Zone <==> raw == "zone"
    ensures raw != "zone" && raw != "wifi" ==> k == Wifi
  {
    if raw == "zone" then Zone else Wifi
  }

  datatype Coordinate = Coordinate(latitude: real, longitude: real)

  /** `GeofenceObj`: a radius tagged with the kind it was created for. */
  datatype Circle = Circle(radius: real, kind: Kind)

  datatype Geofence = Geofence(
    id: string,
    coordinate: Coordinate,
    zoneCircle: Circle,
    wifiCircle: Circle,
    note: string)

  /** `isEqualTo`: two geofences are the same geofence when their ids agree. */
  predicate SameGeofence(a: Geofence, b: Geofence)
  {
    a.id == b.id
  }

  /** Identity ignores the centre, both circles and the note. */
  lemma SameGeofenceIgnoresContents(g: Geofence, coordinate: Coordinate, zone: Circle, wifi: Circle, note: string)
    ensures SameGeofence(g, Geofence(g.id, coordinate, zone, wifi, note))
    ensures SameGeofence(Geofence(g.id, coordinate, zone, wifi, note), g)
  {
  }

  const ZoneSuffix: string := "_zone"
  const WifiSuffix: string := "_wifi"

  /** The suffix that tags a region identifier with its kind. */
  function RegionSuffix(k: Kind): (suffix: string)
    ensures suffix == "_" + RawValue(k)
    ensures |suffix| == 5
  {
    match k
    case Zone => ZoneSuffix
    case Wifi => WifiSuffix
  }

  /** `CLCircularRegion` as far as the model needs it. */
  datatype Region = Region(
    identifier: string,
    center: Coordinate,
    radius: real,
    notifyOnEntry: bool,
    notifyOnExit: bool)

  /** `convertToRegion(geofenceType:)`. */
  function ToRegion(g: Geofence, k: Kind): (r: Region)
    ensures r.identifier == g.id + RegionSuffix(k)
    ensures r.radius == (if k == Zone then g.zoneCircle.radius else g.wifiCircle.radius)
    ensures r.center == g.coordinate
    ensures r.notifyOnEntry && r.notifyOnExit
  {
    match k
    case Zone => Region(g.id + ZoneSuffix, g.coordinate, g.zoneCircle.radius, true, true)
    case Wifi => Region(g.id + WifiSuffix, g.coordinate, g.wifiCircle.radius, true, true)
  }

  /** The two regions of one geofence never share an identifier. */
  lemma RegionIdentifiersDiffer(g: Geofence)
    ensures ToRegion(g, Zone).identifier != ToRegion(g, Wifi).identifier
  {
    var z := ToRegion(g, Zone).identifier;
    assert z[|z| - 1] == 'e';
  }

  /** The annotation title: "Id: <id>", followed by ". <note>" when there is
      a note. */
  function Title(g: Geofence): (t: string)
    ensures |t| >= 4 + |g.id| && t[..4 + |g.id|] == "Id: " + g.id
    ensures g.note == [] <==> |t| == 4 + |g.id|
    ensures g.note != [] ==> t[4 + |g.id|..] == ". " + g.note
  {
    var defaultNote := "Id: " + g.id;
    if g.note == [] then defaultNote else defaultNote + ". " + g.note
  }

  /** The encoded form of a `GeofenceObj`: its radius and its kind's raw value. */
  datatype CircleRecord = CircleRecord(radius: real, geofenceType: string)

  function EncodeCircle(c: Circle): (rec: CircleRecord)
    ensures rec.geofenceType == RawValue(c.kind)
  {
    CircleRecord(c.radius, RawValue(c.kind))
  }

  /** Decoding never fails on the kind: an unknown raw value becomes wifi. */
  function DecodeCircle(rec: CircleRecord): (c: Circle)
    ensures c.radius == rec.radius
    ensures c.kind == KindFromRaw(rec.geofenceType)
  {
    Circle(rec.radius, KindFromRaw(rec.geofenceType))
  }

  /** The encoded form of a `GeofenceArea`, one field per coding key. */
  datatype GeofenceRecord = GeofenceRecord(
    id: string,
    latitude: real,
    longitude: real,
    zoneGeofence: CircleRecord,
    wifiGeofence: CircleRecord,
    note: string)

  function EncodeGeofence(g: Geofence): (rec: GeofenceRecord)
    ensures rec.id == g.id && rec.note == g.note
    ensures rec.latitude == g.coordinate.latitude && rec.longitude == g.coordinate.longitude
    ensures rec.zoneGeofence == EncodeCircle(g.zoneCircle)
    ensures rec.wifiGeofence == EncodeCircle(g.wifiCircle)
  {
    GeofenceRecord(g.id, g.coordinate.latitude, g.coordinate.longitude,
                   EncodeCircle(g.zoneCircle), EncodeCircle(g.wifiCircle), g.note)
  }

  function DecodeGeofence(rec: GeofenceRecord): (g: Geofence)
    ensures g.id == rec.id && g.note == rec.note
    ensures g.coordinate == Coordinate(rec.latitude, rec.longitude)
    ensures g.zoneCircle == DecodeCircle(rec.zoneGeofence)
    ensures g.wifiCircle == DecodeCircle(rec.wifiGeofence)
  {
    Geofence(rec.id, Coordinate(rec.latitude, rec.longitude),
             DecodeCircle(rec.zoneGeofence), DecodeCircle(rec.wifiGeofence), rec.note)
  }

  /** Encoding then decoding a kind, a circle or a whole geofence gives it
      back unchanged. */
  lemma CodecRoundTrip(g: Geofence, c: Circle, k: Kind)
    ensures KindFromRaw(RawValue(k)) == k
    ensures DecodeCircle(EncodeCircle(c)) == c
    ensures DecodeGeofence(EncodeGeofence(g)) == g
  {
  }
}
