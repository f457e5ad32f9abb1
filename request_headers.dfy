/**
 * Two classifiers over request headers (movies/views.py): the device name
 * guessed from a User-Agent string, and the client address taken from
 * X-Forwarded-For or the connection's remote address.
 */
module RequestHeaders {
  import opened Wrappers
  import opened Ascii

  const WindowsDevice := "Windows PC/Laptop"
  const AndroidDevice := "Android"
  const IosDevice := "iOS"
  const MacDevice := "Mac"
  const UnknownDevice := "Unknown"

  /** `detect_device_name`: case-insensitive substring checks in priority
      order windows, android, iphone/ipad/ios, mac; each answer is given
      exactly when its check is the first to succeed. */
  function DetectDeviceName(userAgent: string): (r: string)
    ensures r in {WindowsDevice, AndroidDevice, IosDevice, MacDevice, UnknownDevice}
    ensures var ua := Lower(userAgent);
      && (r == WindowsDevice <==> Occurs("windows", ua))
      && (r == AndroidDevice <==> !Occurs("windows", ua) && Occurs("android", ua))
      && (r == IosDevice <==>
            !Occurs("windows", ua) && !Occurs("android", ua)
            && (Occurs("iphone", ua) || Occurs("ipad", ua) || Occurs("ios", ua)))
      && (r == MacDevice <==>
            !Occurs("windows", ua) && !Occurs("android", ua)
            && !Occurs("iphone", ua) && !Occurs("ipad", ua) && !Occurs("ios", ua)
            && Occurs("mac", ua))
  {
    var ua := Lower(userAgent);
    if Contains(ua, "windows") then WindowsDevice
    else if Contains(ua, "android") then AndroidDevice
    else if Contains(ua, "iphone") || Contains(ua, "ipad") || Contains(ua, "ios") then IosDevice
    else if Contains(ua, "mac") then MacDevice
    else UnknownDevice
  }

  /** A user agent naming both Windows and Android is classified as Windows. */
  lemma WindowsBeforeAndroid(userAgent: string)
    requires Occurs("windows", Lower(userAgent)) && Occurs("android", Lower(userAgent))
    ensures DetectDeviceName(userAgent) == WindowsDevice
  {
  }

  /** `s.split(",")[0]`: the text before the first comma, or all of `s`. */
  function FirstField(s: string): (r: string)
    ensures r <= s
    ensures ',' !in r
    ensures |r| < |s| ==> s[|r|] == ','
  {
    if s == [] || s[0] == ',' then [] else [s[0]] + FirstField(s[1..])
  }

  /** The first field of a comma-joined list is its first element. */
  lemma {:induction false} FirstFieldOfJoined(first: string, rest: string)
    requires ',' !in first
    ensures FirstField(first + "," + rest) == first
  {
    if first != [] {
      assert (first + "," + rest)[1..] == first[1..] + "," + rest;
      FirstFieldOfJoined(first[1..], rest);
    }
  }

  /** `get_client_ip`: a present, non-empty X-Forwarded-For header gives its
      text up to (not including) the first comma, untrimmed; otherwise the
      remote address, which may itself be missing. */
  function GetClientIp(forwardedFor: Option<string>, remoteAddr: Option<string>): (r: Option<string>)
    ensures IsTruthy(forwardedFor) ==>
      && r.Some?
      && r.value <= forwardedFor.value
      && ',' !in r.value
      && (|r.value| < |forwardedFor.value| ==> forwardedFor.value[|r.value|] == ',')
    ensures !IsTruthy(forwardedFor) ==> r == remoteAddr
  {
    if IsTruthy(forwardedFor) then Some(FirstField(forwardedFor.value)) else remoteAddr
  }

  /** Behind proxies, the client address is the first hop of the list. */
  lemma ClientIpIsFirstHop(first: string, rest: string, remoteAddr: Option<string>)
    requires ',' !in first
    ensures GetClientIp(Some(first + "," + rest), remoteAddr) == Some(first)
  {
    FirstFieldOfJoined(first, rest);
  }
}
