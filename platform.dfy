/**
 * What the SDK obtains from the Java platform and the network, passed in as
 * functions: Date.toString, SimpleDateFormat("yyyy-MM-dd").format in the
 * default time zone, `new URI(text)`, and one HTTP GET of a URL. `send`
 * stands for an `http` or `https` connection: the reply, or an IOException
 * with its possibly-null message.
 */
module Platform {
  import Values
  import QueryString
  import Responses

  datatype Host = Host(
    dateToString: Values.Date -> string,
    isoDate: Values.Date -> string,
    parseUri: string -> QueryString.UriVerdict,
    send: string -> Responses.Exchange)
}
