/**
  The records the page receives from the backend's `/api/formats` endpoint
  (`VideoFormat` and `VideoInfo` in src/pages/Index.tsx). An optional
  TypeScript field (`format_note?`, `resolution?`, `filesize?`) is an `Option`.
*/
module VideoModel {
  import opened Wrappers

  /** One download option offered by the backend. */
  datatype VideoFormat = VideoFormat(
    formatId: string,
    formatNote: Option<string>,
    ext: string,
    resolution: Option<string>,
    filesize: Option<int>,
    url: string)

  /** The title of a video and its formats, in the backend's order. */
  datatype VideoInfo = VideoInfo(title: string, formats: seq<VideoFormat>)

  /** JavaScript truthiness of an optional string: present and not the empty string. */
  predicate Truthy(s: Option<string>)
  {
    s.Some? && s.value != ""
  }
}
