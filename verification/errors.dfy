/**
 * The exception classes the bundle throws, catches or classifies. Controllers
 * return `Result<_, Thrown>`; the exception listener turns a `Thrown` (with
 * its file, line, trace and chain) into a JSON response.
 */
module Errors {

  /** Symfony's HttpException and the subclasses the listener names. */
  datatype HttpVariant =
    | NotFound
    | AccessDenied
    | Unauthorized
    | BadRequest
    | ServiceUnavailable
    | NotAcceptable
    | Generic(statusCode: int)

  datatype ErrorClass =
    | Http(variant: HttpVariant, headers: seq<(string, string)>)
    | CredentialsNotFound
    | Runtime
    | InvalidArgument
    | Logic
    | Authentication
    | UnexpectedValue
    | Phar
    | Filesystem
    | OtherClass(name: string)

  /** An exception as thrown: its class and its message. */
  datatype Thrown = Thrown(cls: ErrorClass, message: string)

  /** The status code each HttpException subclass fixes in its constructor. */
  function StatusCodeOf(v: HttpVariant): int
  {
    match v
    case NotFound => 404
    case AccessDenied => 403
    case Unauthorized => 401
    case BadRequest => 400
    case ServiceUnavailable => 503
    case NotAcceptable => 406
    case Generic(code) => code
  }

  /** `get_class($exception)`. */
  function ClassName(c: ErrorClass): string
  {
    match c
    case Http(NotFound, _) => "Symfony\\Component\\HttpKernel\\Exception\\NotFoundHttpException"
    case Http(AccessDenied, _) => "Symfony\\Component\\HttpKernel\\Exception\\AccessDeniedHttpException"
    case Http(Unauthorized, _) => "Symfony\\Component\\HttpKernel\\Exception\\UnauthorizedHttpException"
    case Http(BadRequest, _) => "Symfony\\Component\\HttpKernel\\Exception\\BadRequestHttpException"
    case Http(ServiceUnavailable, _) => "Symfony\\Component\\HttpKernel\\Exception\\ServiceUnavailableHttpException"
    case Http(NotAcceptable, _) => "Symfony\\Component\\HttpKernel\\Exception\\NotAcceptableHttpException"
    case Http(Generic(_), _) => "Symfony\\Component\\HttpKernel\\Exception\\HttpException"
    case CredentialsNotFound => "Symfony\\Component\\Security\\Core\\Exception\\AuthenticationCredentialsNotFoundException"
    case Runtime => "RuntimeException"
    case InvalidArgument => "InvalidArgumentException"
    case Logic => "LogicException"
    case Authentication => "Symfony\\Component\\Security\\Core\\Exception\\AuthenticationException"
    case UnexpectedValue => "UnexpectedValueException"
    case Phar => "PharException"
    case Filesystem => "Composer\\Downloader\\FilesystemException"
    case OtherClass(name) => name
  }

  /** `new NotFoundHttpException($message)`. */
  function NotFoundError(message: string): Thrown
  {
    Thrown(Http(NotFound, []), message)
  }

  /** `new NotAcceptableHttpException($message)`. */
  function NotAcceptableError(message: string): Thrown
  {
    Thrown(Http(NotAcceptable, []), message)
  }
}
