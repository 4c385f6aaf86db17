/**
 * The colour classes the front end gives HTTP methods and status codes.
 * Status codes fall into the 2xx, 3xx and 4xx classes of section 15 of
 * RFC 9110, with everything else (1xx, 5xx and out-of-range codes) in one
 * last bucket.
 */
module HttpUi {
  import opened Requests

  /**
   * A badge's classes: a tinted background, text in the colour's 700 shade
   * (300 in dark mode) and a 200 border; `darkBorder` is the dark-mode border
   * shade.
   */
  function Badge(color: string, darkBorder: string): (s: string)
    requires |color| >= 2
    ensures |s| >= 5 && s[3] == color[0] && s[4] == color[1]
  {
    var s := "bg-" + color + "-500/10 text-" + color + "-700 dark:text-" + color + "-300 border-" + color
             + "-200 dark:border-" + darkBorder;
    assert s == "bg-" + (color + ("-500/10 text-" + color + "-700 dark:text-" + color + "-300 border-" + color
             + "-200 dark:border-" + darkBorder));
    s
  }

  /** A status text colour: the colour's 600 shade, 400 in dark mode. */
  function TextStyle(color: string): (s: string)
    requires |color| >= 1
    ensures |s| >= 6 && s[5] == color[0]
  {
    var s := "text-" + color + "-600 dark:text-" + color + "-400";
    assert s == "text-" + (color + ("-600 dark:text-" + color + "-400"));
    s
  }

  /** The colour of each method's badge. */
  function MethodColor(m: HttpMethod): (c: string)
    ensures |c| >= 3
  {
    match m
    case GET => "blue"
    case POST => "green"
    case PUT => "amber"
    case PATCH => "violet"
    case DELETE => "red"
    case HEAD => "slate"
    case OPTIONS => "purple"
  }

  /** A badge whose dark-mode border is the colour's 900 shade at 60% opacity. */
  function StandardBadge(color: string): string
    requires |color| >= 2
  {
    Badge(color, color + "-900/60")
  }

  /** `HTTP_METHOD_BADGE_STYLES`: one badge per method; HEAD's dark border is `slate-800`. */
  function MethodBadgeStyle(m: HttpMethod): string {
    if m == HEAD then Badge(MethodColor(m), "slate-800") else StandardBadge(MethodColor(m))
  }

  /** The four status buckets, in the order the code tests them. */
  datatype StatusBucket = Successful | Redirection | ClientError | OtherStatus

  function Bucket(statusCode: int): (b: StatusBucket)
    ensures b == Successful <==> 200 <= statusCode < 300
    ensures b == Redirection <==> 300 <= statusCode < 400
    ensures b == ClientError <==> 400 <= statusCode < 500
    ensures b == OtherStatus <==> statusCode < 200 || 500 <= statusCode
  {
    if 200 <= statusCode < 300 then Successful
    else if 300 <= statusCode < 400 then Redirection
    else if 400 <= statusCode < 500 then ClientError
    else OtherStatus
  }

  /** `getHttpStatusBadgeStyles`. */
  function StatusBadgeStyle(statusCode: int): string {
    if statusCode >= 200 && statusCode < 300 then StandardBadge("green")
    else if statusCode >= 300 && statusCode < 400 then StandardBadge("blue")
    else if statusCode >= 400 && statusCode < 500 then StandardBadge("amber")
    else StandardBadge("red")
  }

  /** `getHttpStatusTextStyles`. */
  function StatusTextStyle(statusCode: int): string {
    if statusCode >= 200 && statusCode < 300 then TextStyle("green")
    else if statusCode >= 300 && statusCode < 400 then TextStyle("blue")
    else if statusCode >= 400 && statusCode < 500 then TextStyle("amber")
    else TextStyle("red")
  }

  /**
   * The status badges reuse method badges: green as POST, blue as GET, amber
   * as PUT, red as DELETE, each for exactly its bucket.
   */
  lemma StatusBadgeBuckets(statusCode: int)
    ensures Bucket(statusCode) == Successful ==> StatusBadgeStyle(statusCode) == MethodBadgeStyle(POST)
    ensures Bucket(statusCode) == Redirection ==> StatusBadgeStyle(statusCode) == MethodBadgeStyle(GET)
    ensures Bucket(statusCode) == ClientError ==> StatusBadgeStyle(statusCode) == MethodBadgeStyle(PUT)
    ensures Bucket(statusCode) == OtherStatus ==> StatusBadgeStyle(statusCode) == MethodBadgeStyle(DELETE)
  {
  }

  /** Two codes get the same badge exactly when they are in the same bucket. */
  lemma {:induction false} BadgeSeparatesBuckets(a: int, b: int)
    ensures StatusBadgeStyle(a) == StatusBadgeStyle(b) <==> Bucket(a) == Bucket(b)
  {
    StatusBadgeBuckets(a);
    StatusBadgeBuckets(b);
    MethodBadgesDistinct();
  }

  /** Text styles and badges draw the same boundaries. */
  lemma {:induction false} TextStyleSeparatesBuckets(a: int, b: int)
    ensures StatusTextStyle(a) == StatusTextStyle(b) <==> Bucket(a) == Bucket(b)
    ensures StatusTextStyle(a) == StatusTextStyle(b) <==> StatusBadgeStyle(a) == StatusBadgeStyle(b)
  {
    BadgeSeparatesBuckets(a, b);
  }

  /** The method badge map gives each of the seven methods its own badge. */
  lemma MethodBadgesDistinct()
    ensures forall m1: HttpMethod, m2: HttpMethod :: m1 != m2 ==> MethodBadgeStyle(m1) != MethodBadgeStyle(m2)
  {
    forall m1: HttpMethod, m2: HttpMethod | m1 != m2
      ensures MethodBadgeStyle(m1) != MethodBadgeStyle(m2)
    {
      var c1, c2 := MethodColor(m1), MethodColor(m2);
      assert c1[0] != c2[0] || c1[1] != c2[1];
    }
  }
}
