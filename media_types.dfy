/**
 * The `EKMediaTypes` raw-value enumeration: the MIME types an EPUB manifest item can
 * declare, with `Unknown` for every other string.
 */
module MediaTypes {
  import opened Wrappers

  datatype MediaType =
    | GIF | JPEG | PNG | SVG | XHTML | RFC4329 | OPF2 | OpenType | WOFF
    | MediaOverlays | PLS | MP3 | MP4 | CSS | WOFF2
    | Unknown

  /** The raw value of each case; `unknown` has no explicit raw value, so Swift uses its name. */
  function RawValue(t: MediaType): (s: string)
    ensures t != Unknown <==> s in KnownMimeTypes
  {
    match t
    case GIF => "image/gif"
    case JPEG => "image/jpeg"
    case PNG => "image/png"
    case SVG => "image/svg+xml"
    case XHTML => "application/xhtml+xml"
    case RFC4329 => "application/javascript"
    case OPF2 => "application/x-dtbncx+xml"
    case OpenType => "application/font-sfnt"
    case WOFF => "application/font-woff"
    case MediaOverlays => "application/smil+xml"
    case PLS => "application/pls+xml"
    case MP3 => "audio/mpeg"
    case MP4 => "audio/mp4"
    case CSS => "text/css"
    case WOFF2 => "font/woff2"
    case Unknown => "unknown"
  }

  /** The 15 MIME types the enumeration names explicitly, in declaration order. */
  const KnownMimeTypes: seq<string> := [
    "image/gif", "image/jpeg", "image/png", "image/svg+xml", "application/xhtml+xml",
    "application/javascript", "application/x-dtbncx+xml", "application/font-sfnt",
    "application/font-woff", "application/smil+xml", "application/pls+xml",
    "audio/mpeg", "audio/mp4", "text/css", "font/woff2"
  ]

  /** The failable initialiser `EKMediaTypes(rawValue:)`: the case whose raw value is `s`, if any. */
  function FromRawValue(s: string): (r: Option<MediaType>)
    ensures r.Some? ==> RawValue(r.value) == s
    ensures r.None? <==> forall t: MediaType :: RawValue(t) != s
  {
    if s == "image/gif" then Some(GIF)
    else if s == "image/jpeg" then Some(JPEG)
    else if s == "image/png" then Some(PNG)
    else if s == "image/svg+xml" then Some(SVG)
    else if s == "application/xhtml+xml" then Some(XHTML)
    else if s == "application/javascript" then Some(RFC4329)
    else if s == "application/x-dtbncx+xml" then Some(OPF2)
    else if s == "application/font-sfnt" then Some(OpenType)
    else if s == "application/font-woff" then Some(WOFF)
    else if s == "application/smil+xml" then Some(MediaOverlays)
    else if s == "application/pls+xml" then Some(PLS)
    else if s == "audio/mpeg" then Some(MP3)
    else if s == "audio/mp4" then Some(MP4)
    else if s == "text/css" then Some(CSS)
    else if s == "font/woff2" then Some(WOFF2)
    else if s == "unknown" then Some(Unknown)
    else None
  }

  /** `EKMediaTypes(rawValue: s) ?? .unknown`: total, never fails. */
  function Resolve(s: string): (r: MediaType)
    ensures (exists t: MediaType :: RawValue(t) == s) ==> RawValue(r) == s
    ensures (forall t: MediaType :: RawValue(t) != s) ==> r == Unknown
  {
    FromRawValue(s).GetOr(Unknown)
  }

  /** Distinct cases have distinct raw values, so a raw value names exactly one case. */
  lemma RawValueInjective(t: MediaType, u: MediaType)
    ensures RawValue(t) == RawValue(u) ==> t == u
  {
    if RawValue(t) == RawValue(u) {
      assert FromRawValue(RawValue(t)) == Some(t) by { RawValueRoundTrip(t); }
      RawValueRoundTrip(u);
    }
  }

  /** Resolving a case's raw value gives back that case. */
  lemma RawValueRoundTrip(t: MediaType)
    ensures FromRawValue(RawValue(t)) == Some(t)
    ensures Resolve(RawValue(t)) == t
  {
  }

  /** Each of the 15 listed MIME types resolves to a known case whose raw value is that string. */
  lemma KnownMimeTypesResolve(i: nat)
    requires i < |KnownMimeTypes|
    ensures Resolve(KnownMimeTypes[i]) != Unknown
    ensures RawValue(Resolve(KnownMimeTypes[i])) == KnownMimeTypes[i]
  {
  }

  /** A string that is not a raw value resolves to `Unknown`; a known case comes only from its raw value. */
  lemma ResolveUnrecognised(s: string)
    ensures s !in KnownMimeTypes && s != "unknown" ==> Resolve(s) == Unknown
    ensures Resolve(s) != Unknown ==> s in KnownMimeTypes && RawValue(Resolve(s)) == s
  {
  }
}
