/**
  What the page renders for a format: the icon chosen by `getFormatIcon`,
  the label line, the note and size line built by `formatFileSize`, and the
  `slice(0, 10)` that limits the list to ten rows.
*/
module Presentation {
  import opened Wrappers
  import opened VideoModel
  import opened JsStrings

  /** The icon `getFormatIcon` picks: a camera for a video format, a note for an audio one. */
  datatype Icon = VideoIcon | AudioIcon

  /** The value of `resolution` the backend sends for a format without video. */
  const AudioOnlySentinel := "audio only"

  /** The text shown instead of an absent or empty resolution. */
  const AudioOnlyLabel := "Audio Only"

  /** What the label puts between the resolution and the extension. */
  const LabelSeparator := " - "

  /** What follows a format note, ahead of the size (a bullet between spaces). */
  const NoteSeparator := " \U{2022} "

  const UnknownSize := "Unknown size"
  const MegabyteUnit := " MB"

  /** Bytes in a megabyte as the page counts them (1024 * 1024). */
  const Megabyte := 1048576

  /** The most format rows the page shows. */
  const MaxRows := 10

  /**
    `getFormatIcon`: the video icon exactly when the resolution is present,
    not empty and not the "audio only" sentinel.
  */
  function FormatIcon(f: VideoFormat): (r: Icon)
    ensures r == AudioIcon <==> f.resolution in {None, Some(""), Some(AudioOnlySentinel)}
  {
    if Truthy(f.resolution) && f.resolution.value != AudioOnlySentinel then VideoIcon else AudioIcon
  }

  /**
    `format.resolution || "Audio Only"`: the resolution when it is present and
    not empty, otherwise "Audio Only"; never empty.
  */
  function ShownResolution(f: VideoFormat): (r: string)
    ensures r != []
    ensures Truthy(f.resolution) ==> r == f.resolution.value
    ensures !Truthy(f.resolution) ==> r == AudioOnlyLabel
  {
    if Truthy(f.resolution) then f.resolution.value else AudioOnlyLabel
  }

  /**
    The label line: the shown resolution, then " - ", then the extension in
    upper case.
  */
  function Label(f: VideoFormat): (r: string)
    ensures |r| == |ShownResolution(f)| + |LabelSeparator| + |f.ext|
    ensures r[..|ShownResolution(f)|] == ShownResolution(f)
    ensures r[|ShownResolution(f)|..|r| - |f.ext|] == LabelSeparator
    ensures r[|r| - |f.ext|..] == UpperCase(f.ext)
    ensures forall i :: |r| - |f.ext| <= i < |r| ==> !('a' <= r[i] <= 'z')
  {
    ShownResolution(f) + LabelSeparator + UpperCase(f.ext)
  }

  /** `format.format_note && `${format.format_note} • ``: rendered only for a present, non-empty note. */
  function NotePrefix(f: VideoFormat): (r: string)
    ensures r != [] <==> Truthy(f.formatNote)
    ensures r != [] ==> r == f.formatNote.value + NoteSeparator
  {
    if Truthy(f.formatNote) then f.formatNote.value + NoteSeparator else ""
  }

  function Abs(x: int): nat { if x < 0 then -x else x }

  /**
    The integer `n` that `toFixed(1)` picks for `|bytes| / 2^20`: the `n` for
    which `n / 10` is nearest, the larger one on a tie.
  */
  function Tenths(bytes: int): (r: nat)
    ensures -524288 <= Abs(bytes) * 10 - r * 1048576 < 524288
  {
    (Abs(bytes) * 10 + 524288) / 1048576
  }

  /**
    `(bytes / (1024 * 1024)).toFixed(1)`: a minus sign for a negative value,
    the integer part, a point and one decimal.
  */
  function ToFixed1(bytes: int): (r: string)
    ensures 3 <= |r|
    ensures r[0] == '-' <==> bytes < 0
    ensures r[|r| - 2] == '.' && IsDigit(r[|r| - 1])
  {
    var n := Tenths(bytes);
    (if bytes < 0 then "-" else "") + NatToDecimal(n / 10) + "." + [Digit(n % 10)]
  }

  /**
    `formatFileSize`: "Unknown size" when the size is absent or zero (`!bytes`),
    otherwise the size in megabytes with one decimal.
  */
  function FormatFileSize(bytes: Option<int>): (r: string)
    ensures r == UnknownSize <==> bytes.None? || bytes.value == 0
  {
    if bytes.None? || bytes.value == 0 then UnknownSize
    else
      var text := ToFixed1(bytes.value) + MegabyteUnit;
      assert text[|text| - 1] != UnknownSize[|UnknownSize| - 1];
      text
  }

  /** `t` without the suffix `suffix`, if it ends with it. */
  function StripSuffix(t: string, suffix: string): (r: Option<string>)
    ensures r.Some? ==> r.value + suffix == t
  {
    if |suffix| <= |t| && t[|t| - |suffix|..] == suffix then Some(t[..|t| - |suffix|]) else None
  }

  lemma StripAppendedSuffix(x: string, suffix: string)
    ensures StripSuffix(x + suffix, suffix) == Some(x)
  {
    var t := x + suffix;
    assert t[|t| - |suffix|..] == suffix;
    assert t[..|t| - |suffix|] == x;
  }

  /** The number of tenths in `digits.digit`, if `num` has that form. */
  function ReadTenths(num: string): Option<nat>
  {
    if |num| < 3 || num[|num| - 2] != '.' then None
    else
      var whole, decimal := num[..|num| - 2], num[|num| - 1];
      if AllDigits(whole) && IsDigit(decimal) then
        Some(DecimalValue(whole) * 10 + (decimal as int - '0' as int))
      else None
  }

  /**
    Reads a size line back: the sign and the number of tenths it shows, or
    `None` when it is not of the form `[-]digits.digit MB`.
  */
  function ReadSize(t: string): Option<(bool, nat)>
  {
    match StripSuffix(t, MegabyteUnit)
    case None => None
    case Some(body) =>
      var negative := body != [] && body[0] == '-';
      match ReadTenths(if negative then body[1..] else body)
      case None => None
      case Some(n) => Some((negative, n))
  }

  lemma ReadTenthsShape(whole: string, d: nat)
    requires whole != [] && AllDigits(whole)
    requires d < 10
    ensures ReadTenths(whole + "." + [Digit(d)]) == Some(DecimalValue(whole) * 10 + d)
  {
    var num := whole + "." + [Digit(d)];
    assert num[..|num| - 2] == whole;
  }

  /** `ReadSize` reads the sign, then the tenths. */
  lemma ReadSignedBody(sign: string, num: string)
    requires sign == "" || sign == "-"
    requires num != [] && IsDigit(num[0])
    ensures ReadSize(sign + num + MegabyteUnit) == match ReadTenths(num)
      case None => None
      case Some(n) => Some((sign == "-", n))
  {
    var body := sign + num;
    StripAppendedSuffix(body, MegabyteUnit);
    if sign == "-" {
      assert body[1..] == num;
    } else {
      assert body == num;
    }
  }

  /** `ReadSize` parses the shape `ToFixed1` writes. */
  lemma ReadSizeShape(sign: string, whole: string, d: nat)
    requires sign == "" || sign == "-"
    requires whole != [] && AllDigits(whole)
    requires d < 10
    ensures ReadSize(sign + whole + "." + [Digit(d)] + MegabyteUnit)
         == Some((sign == "-", DecimalValue(whole) * 10 + d))
  {
    var num := whole + "." + [Digit(d)];
    assert sign + whole + "." + [Digit(d)] + MegabyteUnit == sign + num + MegabyteUnit;
    assert num[0] == whole[0];
    ReadTenthsShape(whole, d);
    ReadSignedBody(sign, num);
  }

  /**
    The size line of a non-zero size shows its sign and `Tenths(bytes)`,
    the nearest tenth of a megabyte.
  */
  lemma ReadFormattedSize(bytes: int)
    requires bytes != 0
    ensures ReadSize(FormatFileSize(Some(bytes))) == Some((bytes < 0, Tenths(bytes)))
  {
    var n := Tenths(bytes);
    var sign := if bytes < 0 then "-" else "";
    ReadSizeShape(sign, NatToDecimal(n / 10), n % 10);
    DecimalRoundTrip(n / 10);
  }

  lemma TenthsOfWholeMegabytes(k: nat)
    ensures Tenths(k * 1048576) == 10 * k
  {
    var b := k * 1048576;
    assert b * 10 + 524288 == (10 * k) * 1048576 + 524288;
  }

  lemma ToFixed1WholeTenths(b: int, k: nat)
    requires 0 < b && Tenths(b) == 10 * k
    ensures ToFixed1(b) == NatToDecimal(k) + ".0"
  {
    assert ToFixed1(b) == NatToDecimal(k) + "." + [Digit(0)];
  }

  /** A size of exactly `k` megabytes is shown as `k` followed by ".0 MB". */
  lemma WholeMegabytes(k: nat)
    requires 0 < k
    ensures FormatFileSize(Some(k * Megabyte)) == NatToDecimal(k) + ".0" + MegabyteUnit
  {
    TenthsOfWholeMegabytes(k);
    ToFixed1WholeTenths(k * Megabyte, k);
  }

  /** The first ten formats, in order: `formats.slice(0, 10)`. */
  function VisibleFormats(formats: seq<VideoFormat>): (r: seq<VideoFormat>)
    ensures |r| == Min(MaxRows, |formats|)
    ensures r == formats[..|r|]
  {
    SlicePrefix(formats, MaxRows);
    Slice(formats, 0, MaxRows)
  }

  /** One rendered row: icon, label line (`caption`), note-and-size line, and the id its Download button sends. */
  datatype Row = Row(icon: Icon, caption: string, detail: string, formatId: string)

  /**
    The row for one format: its own icon and label, its note prefix followed
    by its size, and its own id for the Download button.
  */
  function RowOf(f: VideoFormat): (r: Row)
    ensures r.icon == FormatIcon(f) && r.caption == Label(f)
    ensures r.detail == NotePrefix(f) + FormatFileSize(f.filesize)
    ensures r.formatId == f.formatId
  {
    Row(FormatIcon(f), Label(f), NotePrefix(f) + FormatFileSize(f.filesize), f.formatId)
  }

  /** The rows the page renders for a result: one per visible format, in the backend's order. */
  function Rows(info: VideoInfo): (r: seq<Row>)
    ensures |r| == Min(MaxRows, |info.formats|)
    ensures forall i :: 0 <= i < |r| ==> r[i] == RowOf(info.formats[i])
  {
    var shown := VisibleFormats(info.formats);
    seq(|shown|, i requires 0 <= i < |shown| => RowOf(shown[i]))
  }

  /** A format without a resolution is labelled "Audio Only" and gets the audio icon. */
  lemma NoResolutionIsAudio(f: VideoFormat)
    requires !Truthy(f.resolution)
    ensures Label(f)[..|AudioOnlyLabel|] == AudioOnlyLabel
    ensures FormatIcon(f) == AudioIcon
  {
  }

  /**
    The "audio only" sentinel is shown as it is in the label, in lower case,
    while the icon treats it as audio.
  */
  lemma SentinelShownVerbatim(f: VideoFormat)
    requires f.resolution == Some(AudioOnlySentinel)
    ensures Label(f)[..|AudioOnlySentinel|] == AudioOnlySentinel
    ensures FormatIcon(f) == AudioIcon
  {
  }

  /** A 720p MP4 of 10 MiB with no note renders as "720p - MP4", "10.0 MB", video icon. */
  lemma Example720p(f: VideoFormat)
    requires f == VideoFormat("f1", None, "mp4", Some("720p"), Some(10485760), "")
    ensures RowOf(f) == Row(VideoIcon, "720p - MP4", "10.0 MB", "f1")
  {
    WholeMegabytes(10);
    assert NatToDecimal(10) == "10";
    assert UpperCase(f.ext) == "MP4";
    assert Label(f) == "720p - MP4";
    assert FormatFileSize(f.filesize) == "10.0 MB";
  }

  /** Fifteen formats render as exactly their first ten, in order. */
  lemma FifteenFormatsShowTen(info: VideoInfo)
    requires |info.formats| == 15
    ensures |Rows(info)| == 10
    ensures forall i :: 0 <= i < 10 ==> Rows(info)[i].formatId == info.formats[i].formatId
  {
  }
}
