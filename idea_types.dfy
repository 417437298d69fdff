/** The JSON shapes exchanged between the idea form, the request client and
    the idea endpoint. JavaScript treats a missing field and an empty string
    alike (both are falsy), so a field that is absent is the empty string. */
module IdeaTypes {

  /** The body of `POST /api/generate-idea`, and the form state that the
      generator posts. */
  datatype IdeaRequest = IdeaRequest(
    mood: string,
    budget: string,
    location: string,
    timeOfDay: string,
    occasion: string)

  /** A JSON object in an endpoint response, with every field the client or
      the generator reads. */
  datatype ResponseJson = ResponseJson(
    error: string,
    message: string,
    hint: string,
    idea: string,
    title: string,
    description: string)

  /** `{ error }`. */
  function ErrorJson(error: string): ResponseJson {
    ResponseJson(error, [], [], [], [], [])
  }
}
