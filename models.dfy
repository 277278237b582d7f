/**
 * The data transfer objects: the decoded JSON-LD fragment (PageSchemaModel),
 * the request body and the response body of the deep-link endpoint.
 */
module Models {
  import opened Wrappers

  /** "potentialAction": {"@type": ..., "target": ...}; None is a missing or null JSON value. */
  datatype PotentialAction = PotentialAction(actionType: Option<string>, target: Option<string>)

  datatype PageSchema = PageSchema(potentialAction: Option<PotentialAction>)

  datatype DeeplinkRequest = DeeplinkRequest(urls: seq<string>)

  /** None stands for a null property, which the JSON formatter leaves out of the response. */
  datatype DeeplinkResult = DeeplinkResult(links: Option<seq<seq<string>>>, errors: Option<seq<string>>)
}
