/** One species card of the dashboard: image, label, optional badge and a
    31-bar sparkline of the species' daily counts. */
module DetectionCard {
  import opened Basics
  import Numbers

  /** Bars in every sparkline. */
  const DesiredDays: nat := 31

  const PlaceholderImage: string := "images/placeholder-bird.jpg"

  /** The fields of a detection that a card shows. */
  datatype Item = Item(
    commonName: Option<string>,
    imageUrl: Option<string>,
    thumbnailUrl: Option<string>,
    frequency: seq<nat>)

  // ----------------------------------------------------------------------
  // The sparkline data

  function Zeros(n: nat): (z: seq<nat>)
    ensures |z| == n && forall i :: 0 <= i < n ==> z[i] == 0
  {
    seq(n, _ => 0)
  }

  /** The data padded on the left with zeros, or cut to its newest entries,
      so that there is one value per bar. */
  function DisplayData(data: seq<nat>): (r: seq<nat>)
    ensures |r| == DesiredDays
    ensures |data| <= DesiredDays ==> r[DesiredDays - |data|..] == data
    ensures |data| <= DesiredDays ==> forall i :: 0 <= i < DesiredDays - |data| ==> r[i] == 0
    ensures |data| >= DesiredDays ==> r == data[|data| - DesiredDays..]
  {
    if |data| < DesiredDays then Zeros(DesiredDays - |data|) + data
    else if |data| > DesiredDays then data[|data| - DesiredDays..]
    else data
  }

  /** Padding adds no detections, so a short history shows all its counts. */
  lemma {:induction false} DisplayDataKeepsShortTotals(data: seq<nat>)
    requires |data| <= DesiredDays
    ensures Sum(DisplayData(data)) == Sum(data)
  {
    var r := DisplayData(data);
    var pad := r[..DesiredDays - |data|];
    assert r == pad + data;
    SumAppend(pad, data);
    SumZeroIff(pad);
  }

  // ----------------------------------------------------------------------
  // Bars

  /** The height rule of one bar: the minimum height, or the log-scaled one. */
  datatype BarHeight = MinHeight | LogScaled

  datatype BarStyle = BarStyle(fill: string, stroke: string, strokeWidth: string)

  datatype Bar = Bar(value: nat, height: BarHeight, style: BarStyle, title: string)

  const ZeroStyle: BarStyle := BarStyle("#aaa", "#666", "1")
  const CountStyle: BarStyle := BarStyle("#FFD700", "none", "0")

  /** A zero bar is grey with a stroke, any other is gold without one. */
  function StyleFor(value: nat): (s: BarStyle)
    ensures s == ZeroStyle <==> value == 0
    ensures s == CountStyle <==> value != 0
  {
    if value == 0 then ZeroStyle else CountStyle
  }

  /** A bar keeps the minimum height unless both its value and the scale
      maximum are positive. */
  function HeightFor(value: nat, maxValue: int): (h: BarHeight)
    ensures h == MinHeight <==> value <= 0 || maxValue <= 0
  {
    if value > 0 && maxValue > 0 then LogScaled else MinHeight
  }

  function BarFor(value: nat, maxValue: int): (b: Bar)
    ensures b.value == value
    ensures b.height == MinHeight <==> value == 0 || maxValue <= 0
    ensures b.style == ZeroStyle <==> value == 0
    ensures b.style == CountStyle <==> value != 0
    ensures b.title == Numbers.NatToString(value) + " detections"
  {
    Bar(value, HeightFor(value, maxValue), StyleFor(value), Numbers.NatToString(value) + " detections")
  }

  /** The sparkline of `data` under scale maximum `maxValue`. */
  function Bars(data: seq<nat>, maxValue: int): (bars: seq<Bar>)
    ensures |bars| == DesiredDays
  {
    var shown := DisplayData(data);
    seq(DesiredDays, i requires 0 <= i < DesiredDays => BarFor(shown[i], maxValue))
  }

  /** The `forEach` of `createHistogram` that appends one bar per value. */
  method BuildBars(data: seq<nat>, maxValue: int) returns (bars: seq<Bar>)
    ensures bars == Bars(data, maxValue)
    ensures |bars| == DesiredDays
    ensures forall i :: 0 <= i < |bars| ==> bars[i].value == DisplayData(data)[i]
    ensures forall i :: 0 <= i < |bars| ==> (bars[i].style == ZeroStyle <==> bars[i].value == 0)
    ensures forall i :: 0 <= i < |bars| ==> (bars[i].height == MinHeight <==> bars[i].value == 0 || maxValue <= 0)
  {
    var displayData := data;
    if |data| < DesiredDays {
      displayData := Zeros(DesiredDays - |data|) + data;
    } else if |data| > DesiredDays {
      displayData := data[|data| - DesiredDays..];
    }
    bars := [];
    var index := 0;
    while index < |displayData|
      invariant displayData == DisplayData(data)
      invariant 0 <= index <= |displayData|
      invariant bars == Bars(data, maxValue)[..index]
    {
      bars := bars + [BarFor(displayData[index], maxValue)];
      index := index + 1;
    }
  }

  /** When the scale maximum bounds every value, a positive value is never
      drawn at the minimum height. */
  lemma PositiveBarsScale(data: seq<nat>, maxValue: int, i: int)
    requires forall v :: v in data ==> v <= maxValue
    requires 0 <= i < DesiredDays && DisplayData(data)[i] > 0
    ensures Bars(data, maxValue)[i].height == LogScaled
  {
    var shown := DisplayData(data);
    if |data| <= DesiredDays {
      assert i >= DesiredDays - |data|;
      assert shown[i] == shown[DesiredDays - |data|..][i - (DesiredDays - |data|)];
      assert shown[i] == data[i - (DesiredDays - |data|)];
      assert data[i - (DesiredDays - |data|)] in data;
    } else {
      assert shown[i] == data[|data| - DesiredDays + i];
      assert data[|data| - DesiredDays + i] in data;
    }
  }

  // ----------------------------------------------------------------------
  // Badge and image

  /** `toUpperCase` on one character (ASCII letters only). */
  function UpperChar(c: char): (u: char)
    ensures 'a' <= c <= 'z' ==> u as int == c as int - 32
    ensures !('a' <= c <= 'z') ==> u == c
  {
    if 'a' <= c <= 'z' then (c as int - 32) as char else c
  }

  function Upper(s: string): (u: string)
    ensures |u| == |s| && forall i :: 0 <= i < |s| ==> u[i] == UpperChar(s[i])
  {
    seq(|s|, i requires 0 <= i < |s| => UpperChar(s[i]))
  }

  datatype BadgeView = BadgeView(className: string, text: string)

  /** A badge is added only for a truthy (non-empty) badge type. */
  function BadgeFor(badgeType: Option<string>): (b: Option<BadgeView>)
    ensures b.Some? <==> badgeType.Some? && badgeType.value != ""
    ensures b.Some? ==> b.value.className == "detection-badge badge-" + badgeType.value
    ensures b.Some? ==> b.value.text == Upper(badgeType.value)
  {
    if badgeType.Some? && badgeType.value != "" then
      Some(BadgeView("detection-badge badge-" + badgeType.value, Upper(badgeType.value)))
    else None
  }

  /** The two badges the dashboard uses read NEW and RARE. */
  lemma BadgeTexts()
    ensures BadgeFor(Some("new")) == Some(BadgeView("detection-badge badge-new", "NEW"))
    ensures BadgeFor(Some("rare")) == Some(BadgeView("detection-badge badge-rare", "RARE"))
  {
    assert Upper("new") == "NEW";
    assert Upper("rare") == "RARE";
    assert "detection-badge badge-" + "new" == "detection-badge badge-new";
    assert "detection-badge badge-" + "rare" == "detection-badge badge-rare";
  }

  /** `image_url || thumbnail_url || placeholder`. */
  function ImageSource(item: Item): (src: string)
    ensures src != ""
    ensures item.imageUrl.Some? && item.imageUrl.value != "" ==> src == item.imageUrl.value
    ensures (item.imageUrl.None? || item.imageUrl.value == "") && item.thumbnailUrl.Some? && item.thumbnailUrl.value != ""
            ==> src == item.thumbnailUrl.value
    ensures src == PlaceholderImage <==> (
      || (item.imageUrl.Some? && item.imageUrl.value == PlaceholderImage)
      || ((item.imageUrl.None? || item.imageUrl.value == "")
          && (item.thumbnailUrl.None? || item.thumbnailUrl.value == "" || item.thumbnailUrl.value == PlaceholderImage)))
  {
    match OrNull(item.imageUrl)
    case Some(url) => url
    case None =>
      match OrNull(item.thumbnailUrl)
      case Some(url) => url
      case None => PlaceholderImage
  }

  // ----------------------------------------------------------------------
  // The card

  datatype Card = Card(imageSrc: string, name: Option<string>, badge: Option<BadgeView>, bars: seq<Bar>)

  function CardFor(item: Item, maxValue: int, badgeType: Option<string>): (c: Card)
    ensures c.name == item.commonName && c.imageSrc == ImageSource(item)
    ensures c.badge.Some? <==> badgeType.Some? && badgeType.value != ""
    ensures c.badge.Some? ==> c.badge.value.text == Upper(badgeType.value)
    ensures |c.bars| == DesiredDays
    ensures forall i :: 0 <= i < DesiredDays ==> c.bars[i].value == DisplayData(item.frequency)[i]
  {
    Card(ImageSource(item), item.commonName, BadgeFor(badgeType), Bars(item.frequency, maxValue))
  }

  /** `renderDetectionCard(detection, maxValue, badgeType)`. */
  method RenderDetectionCard(item: Item, maxValue: int, badgeType: Option<string>) returns (card: Card)
    ensures card == CardFor(item, maxValue, badgeType)
  {
    var bars := BuildBars(item.frequency, maxValue);
    card := Card(ImageSource(item), item.commonName, BadgeFor(badgeType), bars);
  }
}
