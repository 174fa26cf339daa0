/** The values the map view keeps in its state: towers, links, the Fresnel overlay,
    the outcome of reading a number from the frequency field, and the decimal text
    of an id used in a tower's default name. */
module Model {

  datatype Option<+T> = None | Some(value: T)

  /** Tower and link ids: counters that start at 1 and only grow. */
  type Id = nat

  /** A map position `[lat, lng]` in degrees, kept as given by the map click. */
  datatype GeoPoint = GeoPoint(lat: real, lng: real)

  /** A placed radio tower: `{id, latlng, freqGHz, name}`. */
  datatype Tower = Tower(id: Id, latlng: GeoPoint, freqGHz: real, name: string)

  /** A point-to-point link between the towers with ids `aId` and `bId`. */
  datatype Link = Link(id: Id, aId: Id, bId: Id)

  /** The Fresnel overlay shown for a selected link; its geometry is computed elsewhere. */
  datatype FresnelEllipse = FresnelEllipse(points: seq<GeoPoint>, radiusMeters: real, distMeters: real)

  /** What `parseFloat` yields for the frequency field: a finite number, or NaN. */
  datatype Parsed = Number(value: real) | NotANumber

  /** The frequency every new tower starts with, in GHz. */
  const DefaultFreqGHz: real := 5.0

  function DigitChar(d: nat): (c: char)
    requires d < 10
    ensures '0' <= c <= '9'
  {
    ['0', '1', '2', '3', '4', '5', '6', '7', '8', '9'][d]
  }

  function DigitValue(c: char): nat
  {
    if '0' <= c <= '9' then (c - '0') as nat else 0
  }

  /** The value of a string of decimal digits, most significant first. */
  function DecimalValue(s: string): nat
  {
    if s == [] then 0 else 10 * DecimalValue(s[..|s| - 1]) + DigitValue(s[|s| - 1])
  }

  /** The decimal text of `n` as a template literal renders it: no sign, no leading zeros. */
  function DecimalText(n: nat): (s: string)
    ensures |s| >= 1 && (forall c :: c in s ==> '0' <= c <= '9')
    ensures n > 0 ==> s[0] != '0'
  {
    if n < 10 then [DigitChar(n)] else DecimalText(n / 10) + [DigitChar(n % 10)]
  }

  /** Reading the decimal text back gives the number it was made from. */
  lemma {:induction false} DecimalTextRoundTrip(n: nat)
    ensures DecimalValue(DecimalText(n)) == n
  {
    var s := DecimalText(n);
    if n < 10 {
      assert s[..0] == [];
    } else {
      var prefix, last := DecimalText(n / 10), DigitChar(n % 10);
      DecimalTextRoundTrip(n / 10);
      assert s == prefix + [last];
      assert s[..|s| - 1] == prefix && s[|s| - 1] == last;
      assert DigitValue(last) == n % 10;
    }
  }

  /** The name a tower gets when it is placed: `Tower <id>`. */
  function DefaultName(id: Id): (name: string)
    ensures |name| > 6 && name[..6] == "Tower " && DecimalValue(name[6..]) == id
    ensures name[6..] == DecimalText(id)
  {
    DecimalTextRoundTrip(id);
    var name := "Tower " + DecimalText(id);
    assert name[6..] == DecimalText(id);
    name
  }

  /** Distinct ids give distinct default names. */
  lemma DefaultNameInjective(a: Id, b: Id)
    ensures DefaultName(a) == DefaultName(b) ==> a == b
  {
  }

  /** The tower placed at `at` when the tower counter reads `id`. */
  function NewTower(id: Id, at: GeoPoint): (t: Tower)
    ensures t.id == id && t.latlng == at && t.freqGHz == DefaultFreqGHz
    ensures t.name == DefaultName(id) && DecimalValue(t.name[6..]) == t.id
  {
    Tower(id, at, DefaultFreqGHz, DefaultName(id))
  }

  /** `parseFloat(text) || current`: a parsed number replaces the frequency unless it is
      zero or NaN, the two falsy numbers. */
  function EditedFreq(parsed: Parsed, current: real): (f: real)
    ensures f == current || parsed == Number(f)
    ensures f == 0.0 ==> current == 0.0
    ensures parsed.Number? && parsed.value != 0.0 ==> f == parsed.value
  {
    if parsed.Number? && parsed.value != 0.0 then parsed.value else current
  }
}
