/**
 * The builder that assembles a response envelope field by field.  The
 * request id and the timestamp are generated by the caller and handed to
 * the constructor; `statusText` stands for Go's `http.StatusText` table,
 * which the model leaves uninterpreted.
 */
module Response {
  import opened Wrappers
  import opened Model

  /** The envelope a fresh builder starts from: not successful, zero status, no payload, error or metadata. */
  function Initial<D, T>(requestId: string, timestamp: T): APIResponse<D, T> {
    APIResponse(false, StatusInfo(0, ""), None, None, None, requestId, timestamp)
  }

  class ResponseBuilder<D, T> {
    var response: APIResponse<D, T>
    const statusText: int -> string
    /** The correlation id and timestamp fixed at construction. */
    ghost const requestId: string
    ghost const timestamp: T

    /** No method changes the request id or the timestamp. */
    ghost predicate Valid()
      reads this
    {
      response.requestId == requestId && response.timestamp == timestamp
    }

    /** `NewResponse`. */
    constructor (requestId: string, timestamp: T, statusText: int -> string)
      ensures Valid()
      ensures response == Initial(requestId, timestamp)
      ensures this.requestId == requestId && this.timestamp == timestamp
      ensures this.statusText == statusText
    {
      response := Initial(requestId, timestamp);
      this.statusText := statusText;
      this.requestId := requestId;
      this.timestamp := timestamp;
    }

    method WithSuccess(success: bool) returns (self: ResponseBuilder<D, T>)
      requires Valid()
      modifies this
      ensures Valid() && self == this
      ensures response == old(response).(success := success)
    {
      response := response.(success := success);
      return this;
    }

    /** Mirrors `code` and its standard text into the envelope. */
    method WithStatus(code: int) returns (self: ResponseBuilder<D, T>)
      requires Valid()
      modifies this
      ensures Valid() && self == this
      ensures response.status.code == code && response.status.message == statusText(code)
      ensures response == old(response).(status := response.status)
    {
      response := response.(status := StatusInfo(code, statusText(code)));
      return this;
    }

    /** Sets the payload; `None` is a nil payload. */
    method WithData(data: Option<D>) returns (self: ResponseBuilder<D, T>)
      requires Valid()
      modifies this
      ensures Valid() && self == this
      ensures response == old(response).(data := data)
    {
      response := response.(data := data);
      return this;
    }

    /** Sets the error detail; the payload and metadata are left as they were. */
    method WithError(code: string, message: string, details: string) returns (self: ResponseBuilder<D, T>)
      requires Valid()
      modifies this
      ensures Valid() && self == this
      ensures response.error == Some(ErrorInfo(code, message, details))
      ensures response.data == old(response.data) && response.meta == old(response.meta)
      ensures response == old(response).(error := response.error)
    {
      response := response.(error := Some(ErrorInfo(code, message, details)));
      return this;
    }

    /** Sets the metadata; `None` is a nil pointer. */
    method WithMeta(meta: Option<MetaData<T>>) returns (self: ResponseBuilder<D, T>)
      requires Valid()
      modifies this
      ensures Valid() && self == this
      ensures response == old(response).(meta := meta)
    {
      response := response.(meta := meta);
      return this;
    }

    /**
     * The envelope part of `Send`: the status is forced to the code actually
     * sent, whatever an earlier `WithStatus` set, and the resulting envelope
     * is what gets encoded.
     */
    method Send(statusCode: int) returns (sent: APIResponse<D, T>)
      requires Valid()
      modifies this
      ensures Valid()
      ensures sent == response
      ensures sent.status == StatusInfo(statusCode, statusText(statusCode))
      ensures sent == old(response).(status := sent.status)
    {
      var _ := WithStatus(statusCode);
      sent := response;
    }
  }
}
