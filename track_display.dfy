/** The fields the overlay shows for a playback snapshot
    (`format_track_display` with its inner `format_time`). The HTML the
    fields are placed into, and the float progress percentage, are not
    modelled. */
module TrackDisplay {
  import opened Wrappers
  import opened PyStr
  import opened SpotifyApi

  /** What `format_track_display` produces: the fixed "Nothing is playing
      or no active device." block, the fields of a track card, or an
      exception (a `KeyError` or `ZeroDivisionError` raised while
      deriving them). */
  datatype Display =
    | NothingPlaying
    | Card(title: string, artists: string, album: string, imageUrl: string,
           progressTime: string, durationTime: string)
    | Raises

  // ---------------------------------------------------------------------
  // format_time

  /** `int(ms / 1000)`: the quotient truncated toward zero. */
  function WholeSeconds(ms: int): int {
    if ms >= 0 then ms / 1000 else -((-ms) / 1000)
  }

  /** `format_time(ms)`: minutes, a colon, and the seconds within the
      minute as two digits. Python's `//` and `%` by 60 floor, as Dafny's
      do for a positive divisor. */
  function FormatTime(ms: int): string {
    var seconds := WholeSeconds(ms);
    IntToDec(seconds / 60) + ":" + Pad2(seconds % 60)
  }

  /** For a non-negative `ms`, `format_time` ends in `:SS`, with `SS` two
      digits below 60; the minutes before the colon have no leading zero;
      and minutes and seconds together give back `ms div 1000` seconds. */
  lemma FormatTimeReadsBack(ms: nat)
    ensures var r := FormatTime(ms); var k := |r| - 3;
      && k >= 1 && r[k] == ':'
      && AllDigits(r[..k]) && AllDigits(r[k + 1..])
      && DecValue(r[k + 1..]) < 60
      && (k > 1 ==> r[0] != '0')
      && DecValue(r[..k]) * 60 + DecValue(r[k + 1..]) == ms / 1000
  {
    var seconds := ms / 1000;
    var m := NatToDec(seconds / 60);
    var p := Pad2(seconds % 60);
    NatToDecValue(seconds / 60);
    Pad2Value(seconds % 60);
    var r := FormatTime(ms);
    assert r == m + ":" + p;
    assert r[..|m|] == m;
    assert r[|m| + 1..] == p;
  }

  lemma FormatTimeExamples()
    ensures FormatTime(125000) == "2:05"
    ensures FormatTime(59000) == "0:59"
    ensures FormatTime(3600000) == "60:00"
    ensures FormatTime(999) == "0:00"
    ensures FormatTime(-1500) == "-1:59"
  {
    assert NatToDec(60) == "60" by {
      assert NatToDec(6) == "6";
    }
  }

  // ---------------------------------------------------------------------
  // format_track_display

  /** The names of the artists, in order, or `None` when one of them has
      no name, where `artist['name']` raises. */
  function ArtistNames(artists: seq<Artist>): (r: Option<seq<string>>)
    ensures r.Some? <==> forall i | 0 <= i < |artists| :: artists[i].name.Some?
    ensures r.Some? ==>
      |r.value| == |artists| && forall i | 0 <= i < |artists| :: r.value[i] == artists[i].name.value
    decreases |artists|
  {
    if |artists| == 0 then Some([])
    else match (artists[0].name, ArtistNames(artists[1..]))
      case (Some(n), Some(rest)) => Some([n] + rest)
      case _ => None
  }

  /** `images[0]['url'] if images else ''`: `None` when the first image
      has no `url`, where the lookup raises. */
  function FirstImageUrl(images: seq<Image>): Option<string> {
    if |images| == 0 then Some("") else images[0].url
  }

  function GetOr<T>(o: Option<T>, default: T): T {
    if o.Some? then o.value else default
  }

  /** `format_track_display(data)`. */
  function FormatTrackDisplay(data: Option<Playback>): (r: Display)
    ensures r.NothingPlaying? <==> data.None? || data.value.item.None?
    ensures r.Raises? <==>
      && data.Some? && data.value.item.Some?
      && var item := data.value.item.value;
         || (exists i | 0 <= i < |GetOr(item.artists, [])| :: GetOr(item.artists, [])[i].name.None?)
         || FirstImageUrl(Images(item)).None?
         || item.durationMs == Some(0)
  {
    if data.None? || data.value.item.None? then NothingPlaying
    else
      var item := data.value.item.value;
      var title := GetOr(item.name, "");
      var names := ArtistNames(GetOr(item.artists, []));
      var album := GetOr(GetOr(item.album, Album(None, None)).name, "");
      var image := FirstImageUrl(Images(item));
      var progress := GetOr(data.value.progressMs, 0);
      var duration := GetOr(item.durationMs, 1);
      if names.None? || image.None? || duration == 0 then Raises
      else Card(title, Join(names.value, ", "), album, image.value,
                FormatTime(progress), FormatTime(duration))
  }

  /** `item.get('album', {}).get('images', [])` */
  function Images(item: Item): seq<Image> {
    GetOr(GetOr(item.album, Album(None, None)).images, [])
  }

  /** The fields of a card: the title and album name default to `""`, the
      artists are their names joined in order by `", "`, the image is the
      first image's URL or `""` when there is none, and the two times are
      `format_time` of the progress (default 0) and the duration
      (default 1). */
  lemma CardFields(p: Playback, item: Item, names: seq<string>)
    requires p.item == Some(item)
    requires ArtistNames(GetOr(item.artists, [])) == Some(names)
    requires FirstImageUrl(Images(item)).Some? && item.durationMs != Some(0)
    ensures var r := FormatTrackDisplay(Some(p));
      && r.Card?
      && r.title == (if item.name.Some? then item.name.value else "")
      && r.artists == Join(names, ", ")
      && r.album == (if item.album.Some? && item.album.value.name.Some? then item.album.value.name.value else "")
      && (|Images(item)| == 0 ==> r.imageUrl == "")
      && (|Images(item)| > 0 ==> Some(r.imageUrl) == Images(item)[0].url)
      && r.progressTime == (if p.progressMs.Some? then FormatTime(p.progressMs.value) else "0:00")
      && r.durationTime == (if item.durationMs.Some? then FormatTime(item.durationMs.value) else "0:00")
  {
    assert FormatTime(0) == "0:00";
    assert FormatTime(1) == "0:00";
  }

  // ---------------------------------------------------------------------
  // The artists string

  function PrefixSpace(names: seq<string>): (r: seq<string>)
    ensures |r| == |names| && forall i | 0 <= i < |names| :: r[i] == " " + names[i]
    decreases |names|
  {
    if |names| == 0 then [] else [" " + names[0]] + PrefixSpace(names[1..])
  }

  lemma {:induction false} JoinPrefixed(names: seq<string>)
    requires |names| >= 1
    ensures Join(PrefixSpace(names), ",") == " " + Join(names, ", ")
    decreases |names|
  {
    if |names| > 1 {
      JoinPrefixed(names[1..]);
      assert PrefixSpace(names)[1..] == PrefixSpace(names[1..]);
    }
  }

  /** Moving the separator's space from the part to the separator. */
  lemma CommaThenSpace(a: string, b: string)
    ensures a + "," + (" " + b) == a + ", " + b
  {
    assert "," + (" " + b) == ", " + b;
    assert a + "," + (" " + b) == a + ("," + (" " + b));
  }

  /** `", ".join(names)` is the names joined by `","` once every name
      after the first carries the separator's space. */
  lemma JoinCommaSpace(names: seq<string>)
    requires |names| >= 1
    ensures Join([names[0]] + PrefixSpace(names[1..]), ",") == Join(names, ", ")
  {
    var tail := PrefixSpace(names[1..]);
    var parts := [names[0]] + tail;
    if |names| > 1 {
      assert parts[1..] == tail;
      var rest := Join(names[1..], ", ");
      JoinPrefixed(names[1..]);
      assert Join(parts, ",") == names[0] + "," + (" " + rest);
      CommaThenSpace(names[0], rest);
    } else {
      assert parts == names;
    }
  }

  lemma PrefixSpaceFree(names: seq<string>, c: char)
    requires Free(names, c) && c != ' '
    ensures Free(PrefixSpace(names), c)
  {
    var r := PrefixSpace(names);
    forall i | 0 <= i < |r| ensures c !in r[i] {
      assert r[i] == " " + names[i];
    }
  }

  /** The artists string is the names in order: when no name holds a
      comma, splitting it at the commas gives the first name and then
      each further name behind the space of its `", "` separator. */
  lemma ArtistsSplitBack(names: seq<string>)
    requires |names| >= 1 && Free(names, ',')
    ensures Split(Join(names, ", "), ',') == [names[0]] + PrefixSpace(names[1..])
  {
    var tail := PrefixSpace(names[1..]);
    assert Free(names[1..], ',');
    PrefixSpaceFree(names[1..], ',');
    JoinCommaSpace(names);
    var parts := [names[0]] + tail;
    assert Free(parts, ',') by {
      forall i | 0 <= i < |parts| ensures ',' !in parts[i] {
        if i > 0 { assert parts[i] == tail[i - 1]; }
      }
    }
    SplitJoin(parts, ',');
  }
}
