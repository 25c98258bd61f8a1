/**
 The shapes of the two GeoLite2 lookups the handler consumes: the City record
 (localised names, subdivisions, coordinates) and the ASN record, and the way
 the handler reads Simplified Chinese names out of them.
 */
module Geo {

  /** An IP address as the resolver returns it: its raw bytes (Go's `net.IP`). */
  datatype IP = IP(bytes: seq<bv8>)

  /** A float64 carried by its IEEE 754 bit pattern; nothing numeric is assumed of it. */
  datatype Float64 = Float64(bits: bv64)

  /** Localised names of one place, keyed by locale code. */
  type Names = map<string, string>

  /** The fields of a GeoLite2-City record that the handler reads. */
  datatype CityRecord = CityRecord(
    country: Names,
    city: Names,
    subdivisions: seq<Names>,
    latitude: Float64,
    longitude: Float64)

  /** A GeoLite2-ASN record. */
  datatype AsnRecord = AsnRecord(number: nat, organization: string)

  /** The one locale every displayed name is taken in. */
  const Locale: string := "zh-CN"

  /** The province shown when the record has no subdivision ("unknown" in Chinese). */
  const UnknownProvince: string := "\U{672A}\U{77E5}"

  /** Reading a Go map at a missing key gives the empty string. */
  function LocalName(names: Names): (r: string)
  {
    if Locale in names then names[Locale] else ""
  }

  /** The province: the first subdivision's local name, or the placeholder. */
  function Province(rec: CityRecord): (r: string)
  {
    if |rec.subdivisions| > 0 then LocalName(rec.subdivisions[0]) else UnknownProvince
  }
}
